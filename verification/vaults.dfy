/** The vault as its user sees it: a map from names to the bodies put under them, oldest first. */
module Vaults {
  import opened Bytes
  import opened Environment
  import opened Store
  import opened Broker
  import opened Effects
  import opened Invariants
  import opened Messages
  import opened Unlocking
  import opened Preservation
  import opened Runs
  import opened Histories

  // ---- versions ----

  lemma BookStep(env: Env, dek: Dek, secrets: seq<SecretRow>, j: nat, name: Text)
    requires j < |secrets|
    ensures Book(env, dek, secrets[..j + 1], name)
         == Book(env, dek, secrets[..j], name) + if secrets[j].name == name then [EntryOf(env, dek, secrets[j])] else []
  {
    assert secrets[..j + 1][..j] == secrets[..j];
  }

  /** A longer table only extends the book. */
  lemma {:induction false} BookPrefix(env: Env, dek: Dek, secrets: seq<SecretRow>, j: nat, k: nat, name: Text)
    requires j <= k <= |secrets|
    ensures Book(env, dek, secrets[..j], name) <= Book(env, dek, secrets[..k], name)
    decreases k
  {
    if j < k {
      BookPrefix(env, dek, secrets, j, k - 1, name);
      BookStep(env, dek, secrets, k - 1, name);
    }
  }

  /** Each row is the entry its version number says it is. */
  lemma RowIsEntry(env: Env, dek: Dek, secrets: seq<SecretRow>, nextRowId: I64, j: nat)
    requires SecretsOk(env, dek, secrets, nextRowId) && j < |secrets|
    ensures var book, v := Book(env, dek, secrets, secrets[j].name), secrets[j].version;
            1 <= v <= |book| && book[v - 1] == EntryOf(env, dek, secrets[j])
  {
    assert SecretOk(env, dek, secrets, nextRowId, j);
    BookStep(env, dek, secrets, j, secrets[j].name);
    BookPrefix(env, dek, secrets, j + 1, |secrets|, secrets[j].name);
    assert secrets[..|secrets|] == secrets;
  }

  /** Every version from one to the number of entries has its row. */
  lemma {:induction false} EntryHasRow(env: Env, dek: Dek, secrets: seq<SecretRow>, nextRowId: I64, name: Text, v: nat)
      returns (j: nat)
    requires SecretsOk(env, dek, secrets, nextRowId) && 1 <= v <= |Book(env, dek, secrets, name)|
    ensures j < |secrets| && secrets[j].name == name && secrets[j].version == v
  {
    var n := |secrets| - 1;
    SecretsPrefix(env, dek, secrets, nextRowId, n);
    if v <= |Book(env, dek, secrets[..n], name)| {
      j := EntryHasRow(env, dek, secrets[..n], nextRowId, name, v);
    } else {
      j := n;
      assert SecretOk(env, dek, secrets, nextRowId, n);
    }
  }

  /** No two rows of one name share a version. */
  lemma VersionsDiffer(env: Env, dek: Dek, secrets: seq<SecretRow>, nextRowId: I64, j: nat, k: nat)
    requires SecretsOk(env, dek, secrets, nextRowId) && j < k < |secrets| && secrets[j].name == secrets[k].name
    ensures secrets[j].version < secrets[k].version
  {
    assert SecretOk(env, dek, secrets, nextRowId, j) && SecretOk(env, dek, secrets, nextRowId, k);
    BookStep(env, dek, secrets, j, secrets[j].name);
    BookPrefix(env, dek, secrets, j + 1, k, secrets[j].name);
  }

  // ---- which calls touch the secrets ----

  predicate NoSecretWrites(ws: seq<Write>) { forall k :: 0 <= k < |ws| ==> !ws[k].WriteSecret? }

  lemma {:induction false} SecretsUntouched(env: Env, s: StoreState, ws: seq<Write>)
    requires NoSecretWrites(ws)
    ensures ApplyAll(env, s, ws).secrets == s.secrets
  {
    if ws != [] {
      SecretsUntouched(env, s, ws[..|ws| - 1]);
      assert !ws[|ws| - 1].WriteSecret?;
    }
  }

  lemma {:induction false} RevokesAreNotSecrets(env: Env, dek: Dek, list: seq<BearerRow>)
    ensures NoSecretWrites(RevokeWrites(env, dek, list))
  {
    if list != [] {
      RevokesAreNotSecrets(env, dek, list[..|list| - 1]);
    }
  }

  lemma RevokeLeavesSecrets(env: Env, s: Snap, at: Reading, relayId: Text, apply: bool)
    ensures NoSecretWrites(RevokeRelayEffect(env, s, at, relayId, apply).core)
  {
    if s.vault.Unlocked? {
      RevokesAreNotSecrets(env, s.vault.dek, RevokeTargets(env, s.store, relayId));
    }
  }

  lemma VaultCallsWriteNoSecrets(env: Env, s: Snap, c: Call, e: Effect)
    requires (c.op.OpInit? || c.op.OpUnlock? || c.op.OpLock?) && e == EffectOf(env, s, c)
    ensures NoSecretWrites(e.core)
  {
    match c.op {
      case OpInit(i) =>
        InitCoreKinds(env, s, c.at, i);
        assert forall k :: 0 <= k < |e.core| ==> SetsUpWrite(e.core[k]);
      case OpUnlock(credential) => UnlockCore(env, s, c.at, credential);
      case _ =>
    }
  }

  lemma MintWritesNoSecrets(env: Env, s: Snap, c: Call, e: Effect)
    requires c.op.OpMint? && e == EffectOf(env, s, c)
    ensures NoSecretWrites(e.core)
  {
  }

  lemma RevokesWriteNoSecrets(env: Env, s: Snap, c: Call, e: Effect)
    requires (c.op.OpRevokeRelay? || c.op.OpRevokeBearer?) && e == EffectOf(env, s, c)
    ensures NoSecretWrites(e.core)
  {
    if c.op.OpRevokeRelay? {
      RevokeLeavesSecrets(env, s, c.at, c.op.relayId, c.op.relayApply);
    }
  }

  /** Only a put writes a secret. */
  lemma OnlyPutWritesSecrets(env: Env, s: Snap, c: Call, e: Effect)
    requires !c.op.OpPut? && e == EffectOf(env, s, c)
    ensures NoSecretWrites(e.core)
  {
    if c.op.OpGet? {
      GetQuiet(env, s, c, e);
    } else if c.op.OpSwap? {
      SwapQuiet(env, s, c, e);
    } else if c.op.OpInit? || c.op.OpUnlock? || c.op.OpLock? {
      VaultCallsWriteNoSecrets(env, s, c, e);
    } else if c.op.OpMint? {
      MintWritesNoSecrets(env, s, c, e);
    } else {
      RevokesWriteNoSecrets(env, s, c, e);
    }
  }

  lemma UnlockCore(env: Env, s: Snap, at: Reading, c: Credential)
    ensures UnlockEffect(env, s, at, c).core == []
  {
    if s.vault.Locked? {
      UnlockOutcome(env, s, at, c);
    }
  }

  lemma EventLeavesSecrets(env: Env, s: StoreState, e: Effect, k: nat)
    requires NoSecretWrites(e.core) && k <= |Writes(env, s, e)|
    ensures CutAt(env, s, e, k).secrets == s.secrets
  {
    var ws := Writes(env, s, e);
    forall j | 0 <= j < k ensures !ws[..k][j].WriteSecret? {
      assert j < |e.core| ==> !e.core[j].WriteSecret?;
    }
    SecretsUntouched(env, s, ws[..k]);
  }

  // ---- the refinement ----

  /** The put took effect: the vault was unlocked and the insert was reached. */
  predicate Took(s: Snap, x: Happening) {
    x.call.op.OpPut? && s.vault.Unlocked? && (x.Crashed? ==> x.writes >= 2)
  }

  /** What a put says: its body, all it says about the secret, and when. */
  function EntryPut(c: Call): Entry
    requires c.op.OpPut?
  {
    Entry(Some(c.op.putBody), c.op.secret, c.at.ts)
  }

  /** Everything put under a name so far, oldest first: the history alone says it. */
  function Told(env: Env, xs: seq<Happening>, name: Text): seq<Entry> {
    if xs == [] then []
    else
      var front, x := xs[..|xs| - 1], xs[|xs| - 1];
      Told(env, front, name)
      + if Took(Run(env, front), x) && x.call.op.secret.name == name
        then [EntryPut(x.call)] else []
  }

  /** On a live unlocked vault a put reserves an id and inserts a row that opens to its body. */
  lemma PutShape(env: Env, g: Genesis, s: Snap, c: Call, e: Effect, n: nat) returns (row: SecretRow)
    requires IdealAead(env) && Live(env, g, s) && Small(s.store, n) && n < U32_MAX && s.vault.Unlocked?
    requires c.op.OpPut? && e == PutEffect(env, s, c.at, c.op.secret, c.op.putBody, c.op.nonce)
    ensures e.core == [WriteReserve, WriteSecret(row)] && row.name == c.op.secret.name
    ensures EntryOf(env, g.enrolment.dek, row) == EntryPut(c)
  {
    row := NextSecret(env, s.vault.dek, DEK_GENERATION, s.store, c.op.secret, c.op.putBody, c.op.nonce, c.at.ts);
    SealedOpens(env, s.vault.dek, DEK_GENERATION, s.store, c.op.secret, c.op.putBody, c.op.nonce, c.at.ts);
    PutWritesOk(env, g, s.store, row, n);
    PutUnlocked(env, g, s, c.at, c.op.secret, c.op.putBody, c.op.nonce);
  }

  lemma CutOfPut(env: Env, s: StoreState, e: Effect, row: SecretRow, k: nat)
    requires e.core == [WriteReserve, WriteSecret(row)] && k <= |Writes(env, s, e)|
    ensures CutAt(env, s, e, k).secrets == s.secrets + if k >= 2 then [row] else []
  {
    var ws := Writes(env, s, e);
    assert ws[..0] == [];
    if k >= 1 {
      ApplyUpTo(env, s, ws, 1);
    }
    if k >= 2 {
      ApplyUpTo(env, s, ws, 2);
      var t := ApplyAll(env, s, ws[..2]);
      forall j | 0 <= j < |ws[2..k]| ensures !ws[2..k][j].WriteSecret? {
        assert ws[2..k][j] == ws[j + 2];
      }
      SecretsUntouched(env, t, ws[2..k]);
      ApplyConcat(env, s, ws[..2], ws[2..k]);
      assert ws[..k] == ws[..2] + ws[2..k];
    }
  }

  lemma PutOnVault(env: Env, g: Genesis, s: Snap, c: Call, e: Effect, n: nat) returns (row: SecretRow)
    requires IdealAead(env) && Live(env, g, s) && Small(s.store, n) && n < U32_MAX && s.vault.Unlocked?
    requires c.op.OpPut? && e == EffectOf(env, s, c)
    ensures e.core == [WriteReserve, WriteSecret(row)] && row.name == c.op.secret.name
    ensures EntryOf(env, g.enrolment.dek, row) == EntryPut(c)
  {
    row := PutShape(env, g, s, c, e, n);
  }

  lemma PutFollows(env: Env, s: Snap, x: Happening, e: Effect, row: SecretRow)
    requires x.call.op.OpPut? && s.vault.Unlocked? && e.core == [WriteReserve, WriteSecret(row)]
    ensures CutAt(env, s.store, e, Reached(env, s.store, e, x)).secrets
         == s.store.secrets + if Took(s, x) then [row] else []
  {
    CutOfPut(env, s.store, e, row, Reached(env, s.store, e, x));
  }

  lemma OthersFollow(env: Env, s: Snap, x: Happening, e: Effect)
    requires !(x.call.op.OpPut? && s.vault.Unlocked?) && e == EffectOf(env, s, x.call)
    ensures CutAt(env, s.store, e, Reached(env, s.store, e, x)).secrets == s.store.secrets
  {
    if !x.call.op.OpPut? {
      OnlyPutWritesSecrets(env, s, x.call, e);
    }
    EventLeavesSecrets(env, s.store, e, Reached(env, s.store, e, x));
  }

  lemma BookAppend(env: Env, dek: Dek, secrets: seq<SecretRow>, row: SecretRow, name: Text)
    ensures Book(env, dek, secrets + [row], name)
         == Book(env, dek, secrets, name) + if row.name == name then [EntryOf(env, dek, row)] else []
  {
    assert (secrets + [row])[..|secrets|] == secrets;
  }

  /** The rows one step adds to the secrets: the one put, if it took. */
  lemma NextSecrets(env: Env, g: Genesis, s: Snap, x: Happening, e: Effect, n: nat) returns (added: seq<SecretRow>)
    requires IdealAead(env) && Live(env, g, s) && Small(s.store, n) && n < U32_MAX && e == EffectOf(env, s, x.call)
    ensures CutAt(env, s.store, e, Reached(env, s.store, e, x)).secrets == s.store.secrets + added
    ensures if Took(s, x) then |added| == 1 && added[0].name == x.call.op.secret.name
              && EntryOf(env, g.enrolment.dek, added[0]) == EntryPut(x.call)
            else added == []
  {
    if x.call.op.OpPut? && s.vault.Unlocked? {
      var row := PutOnVault(env, g, s, x.call, e, n);
      PutFollows(env, s, x, e, row);
      added := if Took(s, x) then [row] else [];
    } else {
      OthersFollow(env, s, x, e);
      added := [];
    }
  }

  /** One step of a live vault adds to the book exactly what the history says it adds. */
  lemma BookFollows(env: Env, g: Genesis, s: Snap, x: Happening, n: nat, name: Text)
    requires IdealAead(env) && Live(env, g, s) && Small(s.store, n) && n < U32_MAX
    ensures Book(env, g.enrolment.dek, Next(env, s, x).store.secrets, name)
         == Book(env, g.enrolment.dek, s.store.secrets, name)
            + if Took(s, x) && x.call.op.secret.name == name
              then [EntryPut(x.call)] else []
  {
    var e := EffectOf(env, s, x.call);
    NextIsCut(env, s, e, x);
    var added := NextSecrets(env, g, s, x, e, n);
    BookGains(env, g.enrolment.dek, s.store.secrets, added, name);
  }

  lemma BookGains(env: Env, dek: Dek, secrets: seq<SecretRow>, added: seq<SecretRow>, name: Text)
    requires |added| <= 1
    ensures Book(env, dek, secrets + added, name)
         == Book(env, dek, secrets, name) + if added != [] && added[0].name == name then [EntryOf(env, dek, added[0])]
             else []
  {
    if added == [] {
      assert secrets + added == secrets;
    } else {
      assert added == [added[0]];
      BookAppend(env, dek, secrets, added[0], name);
    }
  }

  /**
   The vault refines the plain map: at every point of every history, the versions stored under each
   name open to exactly the bodies put under it, in order, and say of each what its put said.
   */
  lemma {:induction false} VaultIsMap(env: Env, xs: seq<Happening>, name: Text)
    requires IdealAead(env) && Orderly(env, xs) && |xs| <= U32_MAX
    ensures match GenesisOf(env, xs)
            case None => Told(env, xs, name) == [] && Run(env, xs).store.secrets == []
            case Some(g) => Book(env, g.enrolment.dek, Run(env, xs).store.secrets, name) == Told(env, xs, name)
  {
    HistoryInvariant(env, xs);
    if xs != [] {
      var front, x := xs[..|xs| - 1], xs[|xs| - 1];
      VaultIsMap(env, front, name);
      HistoryInvariant(env, front);
      match GenesisOf(env, front) {
        case Some(g) => BookFollows(env, g, Run(env, front), x, |front|, name);
        case None =>
          if GenesisOf(env, xs).Some? {
            InitLeavesNoSecrets(env, Run(env, front), x);
          }
      }
    }
  }

  lemma OneRowPerVersion(env: Env, dek: Dek, secrets: seq<SecretRow>, nextRowId: I64, name: Text, v: nat)
      returns (j: nat)
    requires SecretsOk(env, dek, secrets, nextRowId) && 1 <= v <= |Book(env, dek, secrets, name)|
    ensures j < |secrets| && secrets[j].name == name && secrets[j].version == v
    ensures EntryOf(env, dek, secrets[j]) == Book(env, dek, secrets, name)[v - 1]
    ensures forall i :: 0 <= i < |secrets| && i != j && secrets[i].name == name ==> secrets[i].version != v
  {
    j := EntryHasRow(env, dek, secrets, nextRowId, name, v);
    RowIsEntry(env, dek, secrets, nextRowId, j);
    forall i | 0 <= i < |secrets| && i != j && secrets[i].name == name ensures secrets[i].version != v {
      if i < j {
        VersionsDiffer(env, dek, secrets, nextRowId, i, j);
      } else {
        VersionsDiffer(env, dek, secrets, nextRowId, j, i);
      }
    }
  }

  /**
   Row by row: at every point of every history each version put under a name has exactly one row, and
   that row opens to the body put as that version; and no row of the name has any other version.
   */
  lemma RowsAreVersions(env: Env, xs: seq<Happening>, name: Text, v: nat) returns (j: nat)
    requires IdealAead(env) && Orderly(env, xs) && |xs| <= U32_MAX && GenesisOf(env, xs).Some?
    requires 1 <= v <= |Told(env, xs, name)|
    ensures var rows, dek := Run(env, xs).store.secrets, GenesisOf(env, xs).value.enrolment.dek;
      && j < |rows| && rows[j].name == name && rows[j].version == v &&
           EntryOf(env, dek, rows[j]) == Told(env, xs, name)[v - 1]
      && (forall i :: 0 <= i < |rows| && i != j && rows[i].name == name ==> rows[i].version != v)
      && (forall i :: 0 <= i < |rows| && rows[i].name == name ==> 1 <= rows[i].version <= |Told(env, xs, name)|)
  {
    HistoryInvariant(env, xs);
    VaultIsMap(env, xs, name);
    var rows, dek, next := Run(env, xs).store.secrets, GenesisOf(env, xs).value.enrolment.dek,
        Run(env, xs).store.nextSecretRowId;
    j := OneRowPerVersion(env, dek, rows, next, name, v);
    forall i | 0 <= i < |rows| && rows[i].name == name ensures 1 <= rows[i].version <= |Told(env, xs, name)| {
      RowIsEntry(env, dek, rows, next, i);
    }
  }

  lemma InitLeavesNoSecrets(env: Env, s: Snap, x: Happening)
    requires SetsUp(s.store, x.call.op)
    ensures Next(env, s, x).store.secrets == s.store.secrets
  {
    var e := EffectOf(env, s, x.call);
    OnlyPutWritesSecrets(env, s, x.call, e);
    NextIsCut(env, s, e, x);
    EventLeavesSecrets(env, s.store, e, Reached(env, s.store, e, x));
  }

  // ---- rows moved or edited ----

  /** What the AEAD covers of a row besides its ciphertext. */
  predicate SamePlace(row: SecretRow, edited: SecretRow) {
    && edited.rowId == row.rowId && edited.version == row.version
    && edited.dekGeneration == row.dekGeneration && edited.nonce == row.nonce
  }

  lemma SealedOpensOnly(env: Env, dek: Dek, row: SecretRow, key: Dek, edited: SecretRow)
    requires IdealAead(env) && SealedIn(env, dek, row) && edited.ctTag == row.ctTag
    ensures OpenSecret(env, key, edited)
         == if key == dek && SamePlace(row, edited) then OpenSecret(env, dek, row) else None
  {
    RecordAadDecodes(SecretVersion, row.rowId, row.version, row.dekGeneration);
    RecordAadDecodes(SecretVersion, edited.rowId, edited.version, edited.dekGeneration);
    if |edited.nonce| == 24 {
      var body := OpenSecret(env, dek, row).value;
      assert env.open(key, edited.nonce, SecretAad(edited), env.seal(dek, row.nonce, SecretAad(row), body))
          == if (key, edited.nonce, SecretAad(edited)) == (dek, row.nonce, SecretAad(row)) then Some(body) else None;
    }
  }

  /**
   A stored ciphertext put into any other row, at any point of any history and under any key: it opens if
   and only if the key is the vault's and row id, version, generation and nonce are those it was sealed
   with, and then to the body put. The name and all else said of the secret are not covered.
   */
  lemma CiphertextStaysPut(env: Env, xs: seq<Happening>, j: nat, key: Dek, edited: SecretRow)
    requires IdealAead(env) && Orderly(env, xs) && |xs| <= U32_MAX && j < |Run(env, xs).store.secrets|
    requires edited.ctTag == Run(env, xs).store.secrets[j].ctTag
    ensures GenesisOf(env, xs).Some?
    ensures var row, dek := Run(env, xs).store.secrets[j], GenesisOf(env, xs).value.enrolment.dek;
      && 1 <= row.version <= |Told(env, xs, row.name)|
      && OpenSecret(env, key, edited) == if key == dek && SamePlace(row, edited)
                                         then Told(env, xs, row.name)[row.version - 1].body else None
  {
    HistoryInvariant(env, xs);
    var s := Run(env, xs).store;
    VaultIsMap(env, xs, s.secrets[j].name);
    var dek := GenesisOf(env, xs).value.enrolment.dek;
    assert SecretOk(env, dek, s.secrets, s.nextSecretRowId, j);
    RowIsEntry(env, dek, s.secrets, s.nextSecretRowId, j);
    SealedOpensOnly(env, dek, s.secrets[j], key, edited);
  }

  // ---- reading ----

  /** What a get answers, told from the map alone. */
  function ExpectedGet(unlocked: bool, book: seq<Entry>, show: bool, apply: bool): Reply {
    if !unlocked then Failure(VaultIsLocked)
    else if book == [] then Failure(UnknownSecret)
    else
      var last := book[|book| - 1];
      if last.body.None? then Failure(SecretUnreadable)
      else if !show then Body([])
      else if last.about.brokerOnly then Failure(BrokerOnly)
      else if !apply then Failure(ApplyNotSet)
      else Body(last.body.value)
  }

  /** A get on a live vault answers from the latest entry of the name. */
  lemma GetFromBook(env: Env, g: Genesis, s: Snap, at: Reading, name: Text, show: bool, apply: bool)
    requires Live(env, g, s)
    ensures GetEffect(env, s, at, name, show, apply).reply
         == ExpectedGet(s.vault.Unlocked?, Book(env, g.enrolment.dek, s.store.secrets, name), show, apply)
  {
    LatestIsNewest(env, g.enrolment.dek, s.store.secrets, s.store.nextSecretRowId, name);
  }

  /**
   A get answers, at every point of every history, with the last body put under the name exactly when
   the vault is unlocked, the reveal is applied, and that body was not put as broker-only; a stored
   body is never unreadable.
   */
  lemma GetReturnsLastPut(env: Env, xs: seq<Happening>, at: Reading, name: Text, show: bool, apply: bool)
    requires IdealAead(env) && Orderly(env, xs) && |xs| <= U32_MAX
    ensures GetEffect(env, Run(env, xs), at, name, show, apply).reply
         == ExpectedGet(Run(env, xs).vault.Unlocked?, Told(env, xs, name), show, apply)
    ensures GetEffect(env, Run(env, xs), at, name, show, apply).reply != Failure(SecretUnreadable)
  {
    HistoryInvariant(env, xs);
    VaultIsMap(env, xs, name);
    ToldReadable(env, xs, name);
    match GenesisOf(env, xs)
    case None =>
    case Some(g) => GetFromBook(env, g, Run(env, xs), at, name, show, apply);
  }

  lemma {:induction false} ToldReadable(env: Env, xs: seq<Happening>, name: Text)
    ensures forall v :: 0 <= v < |Told(env, xs, name)| ==> Told(env, xs, name)[v].body.Some?
  {
    if xs != [] {
      ToldReadable(env, xs[..|xs| - 1], name);
    }
  }

  /** The row of a put: the next id and version, what was said of the secret, and the body sealed for just this row. */
  predicate RowOfPut(env: Env, dek: Dek, s: StoreState, m: SecretMeta, body: Bytes, nonce: Nonce, ts: Text,
                     row: SecretRow) {
    && row.rowId == Succ64(s.nextSecretRowId) && row.version == Succ32(MaxVersion(s.secrets, m.name))
    && EntryOf(env, dek, row) == Entry(Some(body), m, ts) && SealedIn(env, dek, row)
    && row.nonce == nonce && Some(row.dekGeneration) == StoredGeneration(s)
  }

  /**
   Every answer of every put, over any state whatever: it fails when the vault is locked, when the
   generation cannot be read, or when the store rejects the row, which costs a row id; and otherwise it
   stores the row.
   */
  lemma PutAnswers(env: Env, s: Snap, at: Reading, m: SecretMeta, body: Bytes, nonce: Nonce)
    requires IdealAead(env)
    ensures var e := PutEffect(env, s, at, m, body, nonce);
      if s.vault.Locked? then e.reply == Failure(VaultIsLocked) && e.core == []
      else if StoredGeneration(s.store).None? then e.reply == Failure(GenerationUnreadable) && e.core == []
      else
        var dek, reserved := s.vault.dek, Apply(env, s.store, WriteReserve);
        if e.reply == Done then
          && |e.core| == 2 && e.core[0] == WriteReserve && e.core[1].WriteSecret?
          && PutAccepted(reserved, e.core[1].secret)
          && RowOfPut(env, dek, s.store, m, body, nonce, at.ts, e.core[1].secret)
        else
          && e.reply == Failure(StoreRejected) && e.core == [WriteReserve]
          && forall row :: RowOfPut(env, dek, s.store, m, body, nonce, at.ts, row) ==> !PutAccepted(reserved, row)
  {
    if s.vault.Unlocked? && StoredGeneration(s.store).Some? {
      SealedOpens(env, s.vault.dek, StoredGeneration(s.store).value, s.store, m, body, nonce, at.ts);
    }
  }

  /** The store's contract checks never reject a put of the engine's own. */
  lemma PutSucceedsWhenUnlocked(env: Env, xs: seq<Happening>, at: Reading, m: SecretMeta, body: Bytes, nonce: Nonce)
    requires IdealAead(env) && Orderly(env, xs) && |xs| < U32_MAX
    ensures PutEffect(env, Run(env, xs), at, m, body, nonce).reply
         == if Run(env, xs).vault.Unlocked? then Done else Failure(VaultIsLocked)
  {
    HistoryInvariant(env, xs);
    match GenesisOf(env, xs)
    case None =>
    case Some(g) => PutProper(env, g, Run(env, xs), at, m, body, nonce,
                              PutEffect(env, Run(env, xs), at, m, body, nonce), |xs|);
  }
}
