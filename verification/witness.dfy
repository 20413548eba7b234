/** The hypotheses of the theorems about histories can be met together. */
module Witness {
  import opened Bytes
  import opened Codec
  import opened Environment
  import opened Effects
  import opened Histories

  /** A prefix-free spelling: every byte is announced, and the end is marked. */
  function Spell(b: Bytes): Bytes {
    if b == [] then [0] else [1, b[0]] + Spell(b[1..])
  }

  lemma {:induction false} SpellIsPrefixFree(a: Bytes, b: Bytes, p: Bytes)
    ensures Spell(a) <= Spell(b) + p <==> a == b
    decreases |a|
  {
    if a != [] && b != [] {
      var x, y := Spell(a[1..]), Spell(b[1..]) + p;
      assert Spell(a) == [1, a[0]] + x;
      assert Spell(b) + p == [1, b[0]] + y;
      SpellIsPrefixFree(a[1..], b[1..], p);
      assert a == [a[0]] + a[1..] && b == [b[0]] + b[1..];
      SamePrefix([1, a[0]], [1, b[0]], x, y);
    } else if a == [] && b == [] {
    } else {
      assert Spell(a)[0] != (Spell(b) + p)[0];
    }
  }

  lemma SamePrefix(f: Bytes, f': Bytes, x: Bytes, y: Bytes)
    requires |f| == |f'|
    ensures f + x <= f' + y <==> f == f' && x <= y
  {
    if f + x <= f' + y {
      assert (f + x)[..|f|] == f && (f' + y)[..|f|] == f';
      assert forall i :: 0 <= i < |x| ==> (f + x)[|f| + i] == x[i] && (f' + y)[|f| + i] == y[i];
    }
  }

  function Lock(k: Digest, n: Bytes, a: Bytes): Bytes { (k + n) + Spell(a) }

  function PlainSeal(k: Digest, n: Bytes, a: Bytes, p: Bytes): Bytes { Lock(k, n, a) + p }

  function PlainOpen(k: Digest, n: Bytes, a: Bytes, ct: Bytes): Option<Bytes> {
    if |n| == 24 && Lock(k, n, a) <= ct then Some(ct[|Lock(k, n, a)|..]) else None
  }

  lemma PlainOpensOwn(k: Digest, n: Nonce, a: Bytes, p: Bytes, k': Digest, n': Bytes, a': Bytes)
    ensures PlainOpen(k', n', a', PlainSeal(k, n, a, p)) == if (k', n', a') == (k, n, a) then Some(p) else None
  {
    if |n'| == 24 {
      assert PlainSeal(k, n, a, p) == (k + n) + (Spell(a) + p);
      SamePrefix(k' + n', k + n, Spell(a'), Spell(a) + p);
      SpellIsPrefixFree(a', a, p);
      if k' + n' == k + n {
        assert (k' + n')[..32] == k' && (k + n)[..32] == k;
        assert (k' + n')[32..] == n' && (k + n)[32..] == n;
      }
      if (k', n', a') == (k, n, a) {
        assert PlainSeal(k, n, a, p)[|Lock(k, n, a)|..] == p;
      }
    }
  }

  /** An environment with an ideal AEAD: it hides nothing, but opens only what it sealed. */
  function PlainEnv(): Env {
    Env(_ => ZERO32, (_, _) => ZERO32, (_, _) => ZERO32, (_, _, _) => ZERO32, (_, _) => ZERO32,
        PlainSeal, PlainOpen, _ => [], 0)
  }

  /** The environment seals and opens as above. */
  ghost predicate Plain(env: Env) { env.seal == PlainSeal && env.open == PlainOpen }

  lemma PlainOpens(env: Env, k: Digest, n: Nonce, a: Bytes, p: Bytes, k': Digest, n': Bytes, a': Bytes)
    requires Plain(env)
    ensures env.open(k', n', a', env.seal(k, n, a, p)) == if (k', n', a') == (k, n, a) then Some(p) else None
  {
    PlainOpensOwn(k, n, a, p, k', n', a');
  }

  lemma PlainIsIdeal(env: Env)
    requires Plain(env)
    ensures IdealAead(env)
  {
    forall k: Digest, n: Nonce, a: Bytes, p: Bytes, k': Digest, n': Bytes, a': Bytes
      ensures env.open(k', n', a', env.seal(k, n, a, p)) == if (k', n', a') == (k, n, a) then Some(p) else None
    {
      PlainOpens(env, k, n, a, p, k', n', a');
    }
  }

  /** There is an environment and a history in which everything the theorems assume holds and a vault exists. */
  lemma HypothesesMet(at: Reading, passphrase: Text) returns (env: Env, xs: seq<Happening>)
    ensures IdealAead(env) && Orderly(env, xs) && |xs| == 1 && GenesisOf(env, xs).Some?
    ensures GenesisOf(env, xs).value.enrolment.passphrase == passphrase
  {
    env := PlainEnv();
    PlainIsIdeal(env);
    var nonce: Nonce := BigEndian(0, 24);
    var i := Enrolment(passphrase, None, None, Argon2Params(1_048_576, 4, 4), ZERO32, BigEndian(0, 16), nonce, [],
                       nonce);
    var x := Completed(Call(OpInit(i), at));
    xs := [x];
    assert xs[..0] == [];
    assert Run(env, xs[..0]) == START && GenesisOf(env, xs[..0]).None? && Orderly(env, xs[..0]);
    assert SetsUp(START.store, x.call.op);
    assert Admitted(env, START, x);
  }
}
