/** The engine driven through a list of calls: the class reaches exactly the state the histories describe. */
module Drivers {
  import opened Environment
  import opened Effects
  import opened Engines
  import opened Histories

  /** The history of a list of calls that all finish. */
  function Finishing(calls: seq<Call>): (xs: seq<Happening>)
    ensures |xs| == |calls| && forall k :: 0 <= k < |xs| ==> xs[k] == Completed(calls[k])
  {
    seq(|calls|, k requires 0 <= k < |calls| => Completed(calls[k]))
  }

  /** What the calls answer, one by one. */
  function Replies(env: Env, calls: seq<Call>): seq<Reply> {
    if calls == [] then []
    else
      var front := calls[..|calls| - 1];
      Replies(env, front) + [EffectOf(env, Run(env, Finishing(front)), calls[|calls| - 1]).reply]
  }

  /** What the calls hand to the upstream. */
  function Sent(env: Env, calls: seq<Call>): seq<Send> {
    if calls == [] then []
    else
      var front := calls[..|calls| - 1];
      var e := EffectOf(env, Run(env, Finishing(front)), calls[|calls| - 1]);
      Sent(env, front) + if e.sent.Some? then [e.sent.value] else []
  }

  lemma OneMoreCall(env: Env, calls: seq<Call>, k: nat)
    requires k < |calls|
    ensures Run(env, Finishing(calls[..k + 1])) == Step(env, Run(env, Finishing(calls[..k])), calls[k])
  {
    assert Finishing(calls[..k + 1])[..k] == Finishing(calls[..k]);
  }

  lemma OneMoreAnswer(env: Env, calls: seq<Call>, k: nat)
    requires k < |calls|
    ensures var e := EffectOf(env, Run(env, Finishing(calls[..k])), calls[k]);
      && Replies(env, calls[..k + 1]) == Replies(env, calls[..k]) + [e.reply]
      && Sent(env, calls[..k + 1]) == Sent(env, calls[..k]) + if e.sent.Some? then [e.sent.value] else []
  {
    assert calls[..k + 1][..k] == calls[..k];
  }

  /** The calls that set up, open and close the vault. */
  method ServeVault(engine: Engine, c: Call, ghost e: Effect) returns (r: Reply)
    requires engine.Valid() && (c.op.OpInit? || c.op.OpUnlock? || c.op.OpLock?)
    requires e == EffectOf(engine.env, engine.State(), c)
    modifies engine`vault, engine`sends, engine.store, engine.broker
    ensures engine.Did(e, old(engine.State()), old(engine.store.log), old(engine.sends)) && r == e.reply
  {
    match c.op {
      case OpInit(i) => r := engine.InitVault(c.at, i);
      case OpUnlock(credential) => r := engine.Unlock(c.at, credential);
      case OpLock => r := engine.Lock(c.at);
    }
  }

  /** The calls on secrets. */
  method ServeSecrets(engine: Engine, c: Call, ghost e: Effect) returns (r: Reply)
    requires engine.Valid() && (c.op.OpPut? || c.op.OpGet?)
    requires e == EffectOf(engine.env, engine.State(), c)
    modifies engine`vault, engine`sends, engine.store, engine.broker
    ensures engine.Did(e, old(engine.State()), old(engine.store.log), old(engine.sends)) && r == e.reply
  {
    match c.op {
      case OpPut(m, body, nonce) => r := engine.SecretPut(c.at, m, body, nonce);
      case OpGet(name, show, apply) => r := engine.SecretGet(c.at, name, show, apply);
    }
  }

  // The calls on relays and their bearers, one by one.

  method ServeMint(engine: Engine, c: Call, ghost e: Effect) returns (r: Reply)
    requires engine.Valid() && c.op.OpMint? && e == MintEffect(engine.env, engine.State(), c.at, c.op.minting)
    modifies engine.store
    ensures engine.Did(e, old(engine.State()), old(engine.store.log), old(engine.sends)) && r == e.reply
  {
    r := engine.RelayMint(c.at, c.op.minting);
  }

  method ServeRevokeRelay(engine: Engine, c: Call, ghost e: Effect) returns (r: Reply)
    requires engine.Valid() && c.op.OpRevokeRelay?
    requires e == RevokeRelayEffect(engine.env, engine.State(), c.at, c.op.relayId, c.op.relayApply)
    modifies engine.store
    ensures engine.Did(e, old(engine.State()), old(engine.store.log), old(engine.sends)) && r == e.reply
  {
    r := engine.RelayRevoke(c.at, c.op.relayId, c.op.relayApply);
  }

  method ServeRevokeBearer(engine: Engine, c: Call, ghost e: Effect) returns (r: Reply)
    requires engine.Valid() && c.op.OpRevokeBearer?
    requires e == RevokeBearerEffect(engine.env, engine.State(), c.at, c.op.tokenId, c.op.bearerApply)
    modifies engine.store
    ensures engine.Did(e, old(engine.State()), old(engine.store.log), old(engine.sends)) && r == e.reply
  {
    r := engine.RelayRevokeBearer(c.at, c.op.tokenId, c.op.bearerApply);
  }

  method ServeSwap(engine: Engine, c: Call, ghost e: Effect) returns (r: Reply)
    requires engine.Valid() && c.op.OpSwap? && e == SwapEffect(engine.env, engine.State(), c.at, c.op.swap)
    modifies engine`sends, engine.store, engine.broker
    ensures engine.Did(e, old(engine.State()), old(engine.store.log), old(engine.sends)) && r == e.reply
  {
    r := engine.RelaySwap(c.at, c.op.swap);
  }

  /** Serve one call on the engine. */
  method Serve(engine: Engine, c: Call, ghost e: Effect) returns (r: Reply)
    requires engine.Valid() && e == EffectOf(engine.env, engine.State(), c)
    modifies engine`vault, engine`sends, engine.store, engine.broker
    ensures engine.Did(e, old(engine.State()), old(engine.store.log), old(engine.sends)) && r == e.reply
  {
    match c.op {
      case OpPut(_, _, _) => r := ServeSecrets(engine, c, e);
      case OpGet(_, _, _) => r := ServeSecrets(engine, c, e);
      case OpMint(_) => r := ServeMint(engine, c, e);
      case OpRevokeRelay(_, _) => r := ServeRevokeRelay(engine, c, e);
      case OpRevokeBearer(_, _) => r := ServeRevokeBearer(engine, c, e);
      case OpSwap(_) => r := ServeSwap(engine, c, e);
      case _ => r := ServeVault(engine, c, e);
    }
  }

  /** A new engine served a list of calls is in the state of their history, and has answered and sent what it says. */
  method Drive(env: Env, calls: seq<Call>) returns (engine: Engine, replies: seq<Reply>)
    ensures fresh(engine) && engine.env == env && engine.Valid()
    ensures engine.State() == Run(env, Finishing(calls))
    ensures replies == Replies(env, calls) && engine.sends == Sent(env, calls)
  {
    engine := new Engine(env);
    replies := [];
    for k := 0 to |calls|
      invariant fresh(engine) && fresh(engine.store) && fresh(engine.broker) && engine.env == env && engine.Valid()
      invariant engine.State() == Run(env, Finishing(calls[..k]))
      invariant replies == Replies(env, calls[..k]) && engine.sends == Sent(env, calls[..k])
    {
      OneMoreCall(env, calls, k);
      OneMoreAnswer(env, calls, k);
      var r := Serve(engine, calls[k], EffectOf(env, engine.State(), calls[k]));
      replies := replies + [r];
    }
    assert calls[..|calls|] == calls;
  }
}
