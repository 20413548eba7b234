# The secrets engine and its stores, modelled and proved

A Dafny 4.11 model of the sequential core of `env-ctl`'s secrets engine (`crates/secrets-engine`) and
of the retry protocol of its libSQL store (`crates/secrets-store-libsql`), with proofs of what the two
promise. `dafny verify dfyconfig.toml` checks everything.

## How it is put together

* **Bytes up.** `bytes`, `codec` and `env` give machine integers, the byte-level writers with their
  readers, and everything the engine calls but does not define. The hash, the MAC and the key
  derivations are arbitrary functions: a result that needs them to be collision free ends in "or here
  is the colliding pair". The AEAD is symbolic: the predicate `IdealAead` says that what was sealed
  opens under the same key, nonce and associated data and under nothing else, and it is a hypothesis
  of the theorems that need it. `witness` shows that this and the other hypotheses can be met together.
* **The parts.** `audit`, `keyslot`, `broker`, `messages` and `wire` hold the six canonical messages,
  each with the decoder that inverts it, the hash chain, the header MAC, the row MAC and the wire
  formats. `decide` holds the decision with its clause table, `usage` what the counters guarantee over
  sequences of requests.
* **The store.** `store` is `InMemStore`. Every mutation is a `Write` value; the class keeps the list of
  writes it has made, and its contents are that list replayed on an empty store.
* **The engine twice.** `effects` says what each call does, as a value: its own writes in order, its
  audit row, the key its anchor is made with, the state it leaves, what it sends and answers.
  `engine` is the imperative engine, step by step as the source takes the steps, and each of its
  methods is proved to do exactly its effect, write for write. Everything else is proved about the
  effects. `driver` runs a list of calls on the engine and ends in the state of their history.
* **Histories.** `invariants` says which single writes keep a store honest, `preservation` that every
  call makes only such writes, `runs` what is left when a call is cut short after any of its writes.
  A history (`histories`) is a list of calls, each finished or cut by a crash after which the engine
  restarts. One invariant holds at every point of every history. `crashes`, `tampering`, `vaults`,
  `bearers`, `swaps`, `quotas` and `unlocking` draw the conclusions.
* **Answers in plain terms.** `enrolment`, `locking`, `admission`, `revocation` and `trail` tell what
  init, unlock, lock, mint, swap and the revocations answer, change and record without the effects:
  from the stored rows, the call, the clocks and the keyfiles at hand, with the constants in figures.
* **libSQL.** `libsql` runs transactions over a connection that may fail or expire before or after
  a commit, retries once, and interleaves the round trips of many threads under the append lock.

## What histories assume

`Orderly` asks three things of a history, and they are stated because they are needed.

* Token ids are not drawn twice.
* A crash does not fall between the two anchor writes when there is a head already.
  `Crashes.TearIsFinal` shows what happens if it does: that vault never unlocks again.
* No `init` is cut between its header MAC and its generation, and none sets up the vault over a stale
  slot. `Crashes.InitCutExactly` and `Crashes.StaleInitIsFinal` show that both are final. An `init` may
  be cut anywhere before its header MAC, any number of times, and repeated, and the slots it got to are
  then laid under those of the next; it may be cut anywhere after its generation, which sets up the
  vault with a log that may have no head until the first unlock.

Histories have at most 2^32-1 happenings, which keeps version numbers and sequence numbers from
wrapping. The code runs `append_audit` and `write_audit_anchor` as two steps with no lock around
both, so each call is taken as one step of one engine; `Anchors.OverlapBreaksAnchor` shows that two
overlapping calls do break the anchor.

Facts about the code that the proofs bring out and its comments do not:

* The rate clause denies when the count, which already includes the request at hand, reaches the
  rate: a rate of `r` admits `r - 1` requests per window, and at most `2r - 3` in any 60 seconds.
* A request or byte quota equal to 2^64-1 never denies, because the saturated totals meet it.
* A relay that terminates TLS is never allowed at present, whatever its policy says.
* An `init` interrupted between its header MAC and its generation leaves a store that neither unlocks
  nor can be initialised again.
* An `init` with a USB keyfile, interrupted after its slots and before its header MAC, and then an
  `init` without one, leave the first one's USB slot beside the second one's passphrase slot. The header
  MAC covers only the second slot list and `unlock` checks it over both, so that vault never unlocks.
* `unlock` checks a slot's Argon2 parameters before it derives from them, so that a hostile slot cannot
  make it panic (`crates/secrets-engine/src/lib.rs:348-355`), but neither the salt's length nor the
  library's lane limit. It panics exactly when it reaches, before any slot opens, an enabled passphrase
  slot that passes the engine's checks and has a salt under 8 bytes or more than 2^24-1 lanes
  (`Unlocking.UnlockOutcome`); either edit of an honest vault's passphrase slot is an input
  (`Unlocking.HostileSlotPanics`).
* A comment (`crates/secrets-engine/src/lib.rs:1664-1667`) calls a full snapshot rollback the only
  undetectable edit of the log. What the verifier accepts, collisions aside, is more
  (`Tampering.RewoundLogGenuine`): any rows that chain when the stored head is gone; and, under any head
  the engine ever wrote with the mark it was written at, any rows that chain and are genuine up to that
  mark, with anything above it. So the rows written while the vault is locked, refused unlocks among
  them, can be erased or replaced and nothing else touched (`Tampering.UnanchoredRowsForged`,
  `Tampering.FailedUnlockErased`). With the head gone the vault unlocks too, and the unlock anchors the
  rows if and only if the mark is at most the number of its own row; if the rows were cut further below
  the mark, the store it leaves is refused (`Tampering.HeadRemovedAccepted`).
* Revoking a relay on a locked vault fails once the relay has a live bearer, but only after its policy has
  been flagged: the flag stays, and denies every swap under it (`Revocations.RelayRevocationAnswers`).
* The associated data of a secret covers its row id, version and generation and nothing said of it: a row
  whose name, provider, note or broker-only flag is edited still opens (`Vaults.CiphertextStaysPut`).
* The row MAC is said to stop a store-level flip of `revoked`
  (`crates/secrets-engine/src/lib.rs:1207-1211`). It does not stop a row from before the revocation from
  being put back with its own tag (`Bearers.RevocationUndone`).

## Model

| member | source | states |
|---|---|---|
| Codec.Field32Back | crates/secrets-engine/src/keyslot.rs:129-136 | a length-prefixed field is read back exactly, with whatever follows it, while it fits its 32-bit prefix |
| Audit.LinkRow | crates/secrets-engine/src/vault/audit.rs:147-156 | the sealed row carries the next number, the previous hash and its own hash, and the content of the record |
| Audit.VerifyChain | crates/secrets-engine/src/vault/audit.rs:163-181 | accepts exactly the chains all of whose rows are numbered, linked and hashed right; otherwise names the first row that is not |
| Audit.RowDecodes | crates/secrets-engine/src/vault/audit.rs:77-109 | a decoder recovers every field of a row from its canonical bytes, so they are injective |
| Audit.LinkExtends | crates/secrets-engine/src/vault/audit.rs:147-156 | linking to the tail of a verifying chain gives a verifying chain |
| Audit.RowBinding | crates/secrets-engine/src/vault/audit.rs:113-118 | two chained rows with one hash are one row at one position, or collide |
| Audit.ChainBinding | crates/secrets-engine/src/vault/audit.rs:158-181 | two verifying chains that share a row hash agree on every row up to it, in length and in every field, or show a hash collision |
| Keyslots.KeyslotAadDecodes | crates/secrets-engine/src/keyslot.rs:166-184 | the associated data of a slot decodes to its factor, KDF, salt, device, generation and id |
| Keyslots.KeyslotAadAmbiguousBeyondBound | crates/secrets-engine/src/keyslot.rs:123-136 | the 32-bit bound is needed: past it two different slots have the same associated data |
| Keyslots.HeaderDecodes | crates/secrets-engine/src/keyslot.rs:304-327 | the header message decodes to the whole slot sequence and the floor |
| Keyslots.HeaderBinding | crates/secrets-engine/src/keyslot.rs:295-327 | two headers with one MAC under one DEK are one header, or the MAC collides |
| Keyslots.ComputeHeaderMac | crates/secrets-engine/src/keyslot.rs:304-327 | the MAC computed slot by slot is the MAC of the header message |
| Wire.HexDecode | crates/secrets-engine/src/lib.rs:1900-1914 | decodes exactly the strings that spell bytes in hex, either case, and rejects all others |
| Wire.UnHexExact | crates/secrets-engine/src/lib.rs:1900-1914 | a string decodes to given bytes if and only if it spells them pair by pair |
| Wire.HexIsLower | crates/secrets-engine/src/lib.rs:1890-1898 | an encoding has two digits a byte, in lower case |
| Wire.HexRoundTrip | crates/secrets-engine/src/lib.rs:1890-1914 | decoding an encoding gives the bytes back |
| Wire.B64UrlNoPad | crates/secrets-engine/src/lib.rs:1825-1843 | the chunked encoder computes the unpadded base64url text |
| Wire.B64RoundTrip | crates/secrets-engine/src/lib.rs:1825-1843 | that text has a left inverse, for every byte string |
| Wire.B64Shape | crates/secrets-engine/src/lib.rs:1825-1843 | it has the length of section 5 of RFC 4648 without padding, and only symbols of its alphabet |
| Wire.ParseBearerExact | crates/secrets-engine/src/broker/mod.rs:162-177 | a string parses to a token exactly when it is the prefix, that token, an underscore and a non-empty rest, the token being alphanumeric and non-empty |
| Wire.MintedBearerParses | crates/secrets-engine/src/lib.rs:763-767 | a minted string parses to its token id, for all random bytes, even when the secret holds underscores |
| Wire.MintedBearerInjective | crates/secrets-engine/src/lib.rs:763-767 | different token and secret bytes give different strings |
| Broker.ExpiryWindow | crates/secrets-engine/src/broker/policy.rs:94-108 | a granted lifetime is positive, within the ceiling, and short of the clamped seconds by less than one |
| Broker.BearerRowDecodes | crates/secrets-engine/src/broker/mod.rs:84-160 | the row message decodes to all ten fields it covers |
| Broker.RowBinding | crates/secrets-engine/src/broker/token.rs:71-80 | a row that passes under a tag the engine issued says what was sealed under that tag, or the MAC collides |
| Broker.UsageCounters.Bump | crates/secrets-engine/src/broker/mod.rs:216-227 | counts the request for its token in the window it falls into and leaves every other token alone |
| Messages.RecordAadDecodes | crates/secrets-engine/src/vault/aad.rs:58-69 | the record's associated data is 39 bytes and decodes to table, row, version and generation |
| Messages.BuildRecordAad | crates/secrets-engine/src/vault/aad.rs:58-69 | extending field by field gives the record's associated data |
| Messages.AnchorMessageInjective | crates/secrets-engine/src/lib.rs:1867-1888 | one anchor message comes from one mark and one tail hash |
| Messages.KindsApart | crates/secrets-engine/src/broker/mod.rs:56-60 | no message of one kind is ever a message of another, whatever follows the prefixes |
| Decision.DecideIsClauseTable | crates/secrets-engine/src/broker/decide.rs:136-286 | the decision is the first failing clause of a 22-entry table stated in exact arithmetic and by the characters of hosts and paths, for all inputs |
| Decision.AllowIffEveryClause | crates/secrets-engine/src/broker/decide.rs:136-286 | allow exactly when every clause holds |
| Decision.SkewCheckCannotOverflow | crates/secrets-engine/src/broker/decide.rs:266-282 | whenever no clause before the skew check fails, its subtraction and absolute value stay within 64 bits |
| Decision.AllowMeansAlive | crates/secrets-engine/src/broker/decide.rs:157-167 | an allowed request lies within the bearer's life on both clocks, which agree to a minute |
| Decision.ProxyMitmNeverAllowed | crates/secrets-engine/src/lib.rs:1784-1791 | a TLS-terminating relay is never allowed |
| Decision.PathAllowedSpelled | crates/secrets-engine/src/broker/decide.rs:297-308 | a path is allowed if and only if it begins with some entry, or with some entry less its final star |
| Decision.HostInSpelled | crates/secrets-engine/src/broker/decide.rs:292-295 | a host is listed if and only if some entry spells it letter by letter, up to case |
| Decision.UpstreamsServe | crates/secrets-engine/src/broker/policy.rs:20-27 | the hosts each provider's key may go to, by name, and no others |
| UsageLimits.RequestQuotaHolds | crates/secrets-engine/src/broker/decide.rs:228-235 | no more requests than the quota are ever allowed, over any sequence and under changing policies whose quotas are at most that |
| UsageLimits.ByteQuotaHolds | crates/secrets-engine/src/broker/decide.rs:236-241 | the allowed bytes never exceed the byte quota, despite saturating counters |
| UsageLimits.TopQuotaNeverDenies | crates/secrets-engine/src/broker/decide.rs:228-241 | a quota at the top of u64 never denies |
| UsageLimits.TopByteQuotaExceeded | crates/secrets-engine/src/broker/decide.rs:236-241 | two requests of 2^63 bytes are allowed under a quota of 2^64-1 |
| UsageLimits.RateBound | crates/secrets-engine/src/broker/mod.rs:216-227 | a rate r lets at most max(0, 2r-3) requests through in any 60 seconds of forward time |
| UsageLimits.RateBoundReached | crates/secrets-engine/src/broker/decide.rs:242-248 | for every rate r of two or more, 2r-3 requests are allowed within 60 seconds |
| Store.InMemStore.ReserveSecretRowId | crates/secrets-engine/src/vault/store.rs:267-273 | bumps the counter and returns it |
| Store.InMemStore.PutSecret | crates/secrets-engine/src/vault/store.rs:275-312 | inserts exactly the rows that carry a reserved, unused id and the next version; otherwise changes nothing |
| Store.LatestIsLast | crates/secrets-engine/src/vault/store.rs:315-323 | the latest row of a name has its highest version, and is the last written among those |
| Store.InMemStore.AppendAudit | crates/secrets-engine/src/vault/store.rs:382-391 | links the record to the tail and pushes it |
| Store.InMemStore.SaveRelayPolicy | crates/secrets-engine/src/vault/store.rs:415-443 | upserts by relay id under the given, the existing or the next id, and returns it |
| Store.InMemStore.SaveBearer | crates/secrets-engine/src/vault/store.rs:459-467 | upserts by token id |
| Store.InMemStore.SaveKeyslot | crates/secrets-engine/src/vault/store.rs:365-369 | upserts by id, keeping the slots in id order |
| Store.UpsertSlotKeepsOrder | crates/secrets-engine/src/vault/store.rs:365-374 | saving a slot keeps the slots in id order, puts it in, and drops only the slot of its id |
| Anchors.AuditStep | crates/secrets-engine/src/lib.rs:1521-1619 | an audited event extends the chain, anchors it at its new tail when there is a key and the mark is not ahead of that tail, and then meets the writer's assertion |
| Anchors.MarkAhead | crates/secrets-engine/src/lib.rs:1593-1614 | with the mark ahead of the new row an audited event breaks the writer's assertion and leaves a refused log |
| Anchors.AnchoredAccepted | crates/secrets-engine/src/lib.rs:1668-1715 | an anchored log is accepted, whatever rows lie above the anchor |
| Anchors.AcceptedRowsGenuine | crates/secrets-engine/src/lib.rs:1629-1715 | any rows, any mark, and an issued head or none: accepted if and only if the rows chain and the head is gone or the mark is the head's and the rows up to it are genuine, or a named collision |
| Anchors.TamperEvidence | crates/secrets-engine/src/lib.rs:1629-1667 | with the mark kept: accepted if and only if the rows chain and the head is gone or is the current one over genuine rows up to the mark, or a named collision |
| Anchors.FullRollbackAccepted | crates/secrets-engine/src/lib.rs:1664-1667 | the documented residual: a whole earlier log with its own mark and head is accepted |
| Anchors.CrashPoints | crates/secrets-engine/src/lib.rs:1564-1581 | where the anchor stands after each write of an audited event: old, old, torn, new |
| Anchors.TornRefused | crates/secrets-engine/src/lib.rs:1568-1581 | a torn log is refused, or its two anchors collide |
| Anchors.OverlapBreaksAnchor | crates/secrets-engine/src/lib.rs:1521-1549 | two overlapping audited events break the writer's assertion and the log is refused, or the rows or anchors collide |
| Engines.Engine.InitVault | crates/secrets-engine/src/lib.rs:203-323 | does exactly the init effect, write for write |
| Engines.Engine.Unlock | crates/secrets-engine/src/lib.rs:325-469 | does exactly the unlock effect, for every store and credential |
| Engines.Engine.Lock | crates/secrets-engine/src/lib.rs:472-485 | locks first, then records it without an anchor |
| Engines.Engine.SecretPut | crates/secrets-engine/src/lib.rs:487-561 | does exactly the put effect: reserve, seal, insert, record |
| Engines.Engine.SecretGet | crates/secrets-engine/src/lib.rs:564-664 | does exactly the get effect, with every refusal |
| Engines.Engine.RelayMint | crates/secrets-engine/src/lib.rs:679-840 | does exactly the mint effect: gates in order, policy, bearer, record |
| Engines.Engine.RelayRevoke | crates/secrets-engine/src/lib.rs:940-996 | does exactly the revocation effect, dry or applied |
| Engines.Engine.RelayRevokeBearer | crates/secrets-engine/src/lib.rs:1002-1047 | does exactly the single revocation effect |
| Engines.Engine.RelaySwap | crates/secrets-engine/src/lib.rs:1056-1353 | does exactly the swap effect, and sends exactly what the effect sends |
| Engines.Engine.VerifyAuditAnchorWith | crates/secrets-engine/src/lib.rs:1668-1715 | accepts exactly the stores that the anchor rule accepts |
| Engines.Engine.WriteAuditAnchor | crates/secrets-engine/src/lib.rs:1582-1619 | writes the mark, then the head, and nothing else |
| Engines.Engine.RecoverDek | crates/secrets-engine/src/lib.rs:340-395 | finds the DEK of the first slot that opens |
| Engines.Engine.RevokeEach | crates/secrets-engine/src/lib.rs:970-979 | revokes and reseals each live bearer of the list and counts them; locked, it stops at the first |
| Engines.Engine.UsbPossessionProven | crates/secrets-engine/src/lib.rs:1401-1418 | true exactly when no enabled USB slot is enrolled or one of their keyfiles is at hand |
| Drivers.Drive | crates/secrets-engine/src/lib.rs:203-1353 | a new engine served any list of calls is in the state of their history and has answered and sent exactly what it says |
| Invariants.LatestIsNewest | crates/secrets-engine/src/vault/store.rs:314-343 | the row of highest version is the last one written for its name, and its version counts them all |
| Invariants.RowIdsIncrease | crates/secrets-engine/src/vault/store.rs:267-291 | row ids strictly increase within what was reserved |
| Invariants.PolicyKeeps | crates/secrets-engine/src/vault/store.rs:415-443 | a policy write keeps relay ids and row ids unique and positive and moves none |
| Invariants.WriteKeeps | crates/secrets-engine/src/vault/store.rs:256-467 | every admissible write keeps the store honest and loses nothing |
| Unlocking.UnlockHonest | crates/secrets-engine/src/lib.rs:325-469 | over an honest accepted store an unlock succeeds exactly with a credential that derives an enrolled key |
| Unlocking.UnlockOutcome | crates/secrets-engine/src/lib.rs:325-469 | over any store, a failed unlock leaves the vault locked, a successful one has passed every check, and it panics exactly when some enabled passphrase slot the engine accepts and the Argon2 library rejects comes before every slot that opens |
| Unlocking.ProbeIsFirst | crates/secrets-engine/src/lib.rs:340-395 | trying the slots gives the answer of the first slot that gives one, and none exactly when all stay shut |
| Unlocking.HostileSlotPanics | crates/secrets-engine/src/lib.rs:348-367 | the inputs: an honest vault whose passphrase slot has its salt cut below 8 bytes, or lanes past the library's limit, panics for every passphrase |
| Unlocking.UnlockProvesHeader | crates/secrets-engine/src/lib.rs:396-437 | edit slots, floor and generation but keep the header MAC: an unlock proves all three and the DEK to be the enrolled ones, or the stored and the enrolled header collide |
| Enrolments.InitAnswers | crates/secrets-engine/src/lib.rs:215-240 | every answer of every init, with the floors in figures; a refused init writes nothing at all |
| Enrolments.EnrolmentStands | crates/secrets-engine/src/lib.rs:242-303 | at every point after the init that sets up the vault: the slots field by field, the floor at its time, generation one, and the MAC over both |
| Enrolments.SlotOpensExactly | crates/secrets-engine/src/lib.rs:340-395 | a slot opens to a DEK if and only if it is enabled, of the credential's factor, strong enough or at hand, and the derived key opens it |
| Enrolments.SlotPanicsExactly | crates/secrets-engine/src/lib.rs:348-367 | a slot panics a passphrase if and only if it passes the engine's checks with too many lanes or a salt of a length the library rejects |
| Enrolments.WrappedDekStaysPut | crates/secrets-engine/src/keyslot.rs:166-184 | at any point, a wrapped DEK put into any slot opens if and only if factor, KDF, salt, device, generation, id and nonce are those it was wrapped with and the credential yields its key |
| Enrolments.UnlockAnswers | crates/secrets-engine/src/lib.rs:325-469 | every answer of every unlock over any state, from the first slot to answer, the header MAC, the highest generation and the anchor; the vault opens exactly on a good one |
| Preservation.PutNeverRejected | crates/secrets-engine/src/lib.rs:504-545 | the store's contract checks never reject the engine's own put |
| Preservation.RevokesExactly | crates/secrets-engine/src/lib.rs:970-979 | a revocation walk flips exactly the listed live bearers where they stand and nothing else |
| Preservation.CallProper | crates/secrets-engine/src/lib.rs:203-1353 | every call on a live vault makes only admissible writes, and holds no DEK but the enrolled one |
| Runs.ProperCut | crates/secrets-engine/src/lib.rs:1564-1581 | a call cut short after any of its writes leaves an honest store with all it had, its anchor standing where it stood or further up, or its log torn exactly at the one point |
| Runs.InitGoesLive | crates/secrets-engine/src/lib.rs:203-323 | a successful init over a store without a vault and without a stale slot makes a live vault, locked, anchored at its own row |
| Runs.InitCutLive | crates/secrets-engine/src/lib.rs:290-317 | an init over no stale slot cut anywhere after its generation makes a live vault too, with no head yet until its last write |
| Histories.HistoryInvariant | crates/secrets-engine/src/lib.rs:203-1619 | at every point of every history the store is blank or the vault is live, an init cut before its header or after its generation included |
| Histories.HistoryGrows | crates/secrets-engine/src/lib.rs:1582-1619 | once there is a vault nothing is lost, the high-water mark never falls and a head is never dropped |
| Histories.AnchorInvariant | crates/secrets-engine/src/lib.rs:1521-1715 | at every point the chain verifies, the mark lies within it and at its tail while unlocked, the head, where there is one, is the MAC over the row at the mark, there is one while unlocked, and the verifier accepts |
| Histories.FinishedInitHasHead | crates/secrets-engine/src/lib.rs:310-317 | where the init that sets up the vault finishes there is a head from then on |
| Histories.AnchorAssertionHolds | crates/secrets-engine/src/lib.rs:1593-1614 | the writer's debug assertion holds at every anchor ever written, the genesis one included |
| Histories.UnlockExactly | crates/secrets-engine/src/lib.rs:325-469 | at every point an unlock succeeds exactly with a credential that derives an enrolled key; the log never refuses it |
| Histories.EnrolledFactorsUnlock | crates/secrets-engine/src/lib.rs:203-323 | the factors given at init open the vault ever after, to the init DEK |
| Locking.LockHolds | crates/secrets-engine/src/lib.rs:471-485 | after a lock and up to an unlock with an enrolled factor, crashes included: the vault is locked, the mark stays, every get, put and mint fails, and no swap is allowed or sends |
| Locking.LockLasts | crates/secrets-engine/src/lib.rs:471-485 | over any history whatever, from a finished lock on and until an unlock answers well, the vault is locked, every get, put and mint fails, and no swap is allowed or sends |
| Locking.StaysLocked | crates/secrets-engine/src/lib.rs:325-485 | from any point with the vault locked, and up to such an unlock, it stays locked and no meta key changes |
| Locking.OnlyUnlockOpens | crates/secrets-engine/src/lib.rs:325-469 | whatever happens, a locked vault is open afterwards only by a finished unlock that answered well |
| Locking.UnlockedAlready | crates/secrets-engine/src/lib.rs:326-334 | an unlock of an unlocked vault answers and changes nothing, whatever the credential |
| Crashes.CrashRecovers | crates/secrets-engine/src/lib.rs:1564-1581 | a crash anywhere but between the anchor writes leaves a store that unlocks as before |
| Crashes.TearIsFinal | crates/secrets-engine/src/lib.rs:1568-1581 | a crash between them is final: nothing the engine does later makes that vault unlock, or two anchors collide |
| Crashes.InitCutExactly | crates/secrets-engine/src/lib.rs:290-317 | for every point of a crash inside init: a store without a vault holding the slots reached, or final, or a vault its passphrase unlocks exactly when no stale slot was there or the header MAC collides |
| Crashes.RepeatedInit | crates/secrets-engine/src/lib.rs:290-301 | after a cut at k before the header, any accepted second init unlocks with its passphrase if and only if k < 2, or it brings a USB keyfile, or the header MAC collides |
| Crashes.StaleInitIsFinal | crates/secrets-engine/src/lib.rs:290-301 | an init over a stale slot is final: no credential ever unlocks it and no init replaces it, whatever happens next, or a recovered DEK makes two slot lists collide |
| Crashes.StaleSlotLeft | crates/secrets-engine/src/lib.rs:263-301 | the input: an init with a USB keyfile cut after its slots, then one without |
| Tampering.HeadsAreIssued | crates/secrets-engine/src/lib.rs:1582-1619 | every head ever written is the anchor of some row of the log as it is now |
| Tampering.TamperEvidentHistory | crates/secrets-engine/src/lib.rs:1629-1667 | at any point of any history, with the mark kept and any head ever written or none: accepted if and only if the rows chain and the head is gone, or current over rows genuine up to the mark, or a named collision |
| Tampering.RewoundLogGenuine | crates/secrets-engine/src/lib.rs:1664-1667 | with the mark rewound to anything too: accepted if and only if the rows chain and the head is gone, or the mark is where that head was written and the rows up to it are genuine with anything above, or a named collision |
| Tampering.HeadRemovedAccepted | crates/secrets-engine/src/lib.rs:1673-1677 | at any point, with the head removed any verifying rows are accepted and the enrolled credentials unlock; the unlock anchors the rows if the mark is at most the number of its row, and otherwise leaves a refused log |
| Tampering.UnanchoredRowsForged | crates/secrets-engine/src/lib.rs:1652-1667 | at any point, everything kept but the rows above the mark, and any chaining rows in their place, is accepted; the enrolled credentials unlock and the unlock anchors the rows |
| Tampering.FailedUnlockErased | crates/secrets-engine/src/lib.rs:1664-1667 | the input: a refused unlock on a locked vault adds a row whose removal gives back exactly the earlier store, which is accepted |
| Trails.CallTrail | crates/secrets-engine/src/lib.rs:1477-1541 | every call over any state: whether it leaves an audit row, and its event, subject, detail, outcome, time and actor, told from the stored rows, the call and its answer |
| Trails.TrailStays | crates/secrets-engine/src/lib.rs:1477-1541 | at any point of any history a finished call leaves its row exactly when the trail says so, and the row that says it is in the log for good |
| Trails.PutTellsNothing | crates/secrets-engine/src/lib.rs:533-561 | whatever body is put, the audit row is the same and so is all that is stored but the ciphertext |
| Trails.MintTellsNothing | crates/secrets-engine/src/lib.rs:763-840 | whatever secret a bearer is minted with, the audit row is the same and so is all that is stored but one MAC |
| Trails.GetTellsNothing | crates/secrets-engine/src/lib.rs:564-664 | whatever a secret opens to, reading it leaves the same audit row |
| Trails.SwapTellsNothing | crates/secrets-engine/src/lib.rs:1056-1160 | whatever the real key is, the swap that sends it leaves the same audit row |
| Vaults.VaultIsMap | crates/secrets-engine/src/lib.rs:487-561 | the versions stored under each name open to exactly the bodies put under it, in order, and say of each what its put said, over every history |
| Vaults.GetReturnsLastPut | crates/secrets-engine/src/lib.rs:564-664 | a get answers from the last body put, exactly when unlocked, applied and not broker-only; no stored body is ever unreadable |
| Vaults.PutAnswers | crates/secrets-engine/src/lib.rs:487-561 | every answer of every put over any state, and the row stored: next id and version, what was said, the stored generation, and the body sealed for just that row; a rejected put costs a row id |
| Vaults.PutSucceedsWhenUnlocked | crates/secrets-engine/src/lib.rs:487-561 | a put on an unlocked vault always succeeds |
| Vaults.RowsAreVersions | crates/secrets-engine/src/vault/store.rs:293-343 | at any point each version put under a name has exactly one row, which opens to the body put as that version, and the name has no other rows |
| Vaults.CiphertextStaysPut | crates/secrets-engine/src/vault/aad.rs:1-27 | at any point, a stored ciphertext in any row and under any key opens if and only if key, row id, version, generation and nonce are those it was sealed with, and then to the body put |
| Bearers.AllowedIsAlive | crates/secrets-engine/src/lib.rs:1167-1353 | an allowed swap read the token's row, unrevoked and within its life |
| Bearers.EditedRowDenied | crates/secrets-engine/src/lib.rs:1205-1231 | a row edited under an issued tag is denied as unknown, or the row MAC collides |
| Bearers.RevocationUndone | crates/secrets-engine/src/lib.rs:1207-1231 | at any later point with the vault unlocked, the row a token had before it was revoked, put back, passes the screen unrevoked |
| Bearers.PolicyLinkage | crates/secrets-engine/src/vault/store.rs:415-443 | ids stay unique and positive, and a bearer's policy id leads to the same relay for ever |
| Bearers.MintStores | crates/secrets-engine/src/lib.rs:751-810 | a mint leaves its bearer under its token, linked to the policy minted |
| Bearers.Provenance | crates/secrets-engine/src/lib.rs:679-840 | every stored bearer was issued by a mint of the history, at most revoked since, and its policy id resolves to the relay that mint was for |
| Bearers.IssuedLifetime | crates/secrets-engine/src/broker/policy.rs:97-108 | an issued bearer lives for the least of what was asked for, the policy and the ceiling, short of it by under a second |
| Bearers.AllowedWasMinted | crates/secrets-engine/src/lib.rs:701-749 | whatever an allowed swap presented was minted in the history for the local peer that uses it, is the minted string or a MAC collision, and is used within the lifetime that mint granted, on both clocks |
| Bearers.IssuedBinding | crates/secrets-engine/src/lib.rs:787-803 | an issued bearer is bound to whom it was minted for: uid as uid, pid as pid, client as client, key as key |
| Bearers.RemoteNeverLocal | crates/secrets-engine/src/broker/decide.rs:186-208 | a bearer minted for a remote client is never allowed over the local path |
| Bearers.MintedPasses | crates/secrets-engine/src/lib.rs:763-840 | the string a mint answers passes the screen of a swap right after, as a live row under the policy asked for |
| Admissions.MintAnswers | crates/secrets-engine/src/lib.rs:701-840 | every answer of every mint: refused exactly by principal, USB gate and lifetime, in that order, else the relay, the token and the string; a refused mint stores nothing |
| Admissions.SwapAnswers | crates/secrets-engine/src/lib.rs:1167-1353 | every answer of every swap, over any state, from the stored rows, the request, the clocks, the counters and the keyfiles at hand |
| Admissions.SwapAllowedExactly | crates/secrets-engine/src/lib.rs:1167-1353 | a swap is allowed if and only if it presents an unaltered stored bearer, alive and used by its peer, under a policy that allows the request, with the USB gate open and the secret readable |
| Admissions.SwapOnHistory | crates/secrets-engine/src/lib.rs:1233-1353 | on a history: likewise, with the floor at the init, the gate by the enrolled keyfile and the secret by what was put |
| Admissions.MintThenSwap | crates/secrets-engine/src/lib.rs:679-1353 | the string a mint just answered is allowed a request if and only if the policy asked for allows it, it comes from the peer named within the lifetime granted, the gate is open and the secret was put |
| Bearers.DeadStaysDead | crates/secrets-engine/src/broker/decide.rs:259-282 | once the granted lifetime has passed on the boot clock a token is never allowed again, however the wall clock moves |
| Bearers.RevokedStaysDenied | crates/secrets-engine/src/lib.rs:1371-1396 | once revoked, a token is never allowed again |
| Bearers.DryRunAgrees | crates/secrets-engine/src/lib.rs:940-996 | dry run and applied revocation count the same; the dry run writes only its row; afterwards none is left and all others are untouched |
| Bearers.RelayRevocationIsFinal | crates/secrets-engine/src/lib.rs:957-980 | revoking a relay is final for its bearers, even when the relay is minted again |
| Bearers.BearerRevocationIsFinal | crates/secrets-engine/src/lib.rs:1002-1047 | revoking one bearer is final for it |
| Revocations.SingleRevocation | crates/secrets-engine/src/lib.rs:1002-1047 | dry and applied answer the same 0 or 1 from the stored row; dry changes nothing, applied flips that one row and no other, and on a locked vault it fails on a live row and changes none |
| Revocations.RelayRevocationAnswers | crates/secrets-engine/src/lib.rs:940-996 | at any point dry and applied count the relay's live bearers; on a locked vault the applied call fails on a live bearer and revokes none, but flags the policy |
| Revocations.RevocationCutFlags | crates/secrets-engine/src/lib.rs:957-980 | an applied revocation cut after its first write leaves the policy flagged |
| Swaps.SwapAccounted | crates/secrets-engine/src/lib.rs:1056-1160 | every swap writes one row with the outcome answered, sends only behind an authenticated row and an allow, and its host fence never fires |
| Swaps.SentIsLastPut | crates/secrets-engine/src/lib.rs:1335-1353 | what is sent is the last body put under the policy's secret name |
| Swaps.SwapsConserved | crates/secrets-engine/src/lib.rs:1056-1160 | over a history without crashes the log holds one swap row per swap and exactly as many successful ones as answered sends |
| Quotas.CountersAreTallies | crates/secrets-engine/src/lib.rs:1253-1261 | at every point of every history a token's counters are the tallies of its requests decided since the engine was last started |
| Quotas.QuotasHold | crates/secrets-engine/src/broker/mod.rs:201-226 | since the last start a bearer has got no more requests and no more bytes sent than its policy's quotas |
| Quotas.RateHolds | crates/secrets-engine/src/broker/mod.rs:201-226 | over any stretch without a crash whose requests lie within 60 seconds at most max(0, 2r-3) are sent |
| LibSql.LibSqlStore.RunRetry | crates/secrets-store-libsql/src/sync.rs:107-126 | runs the body, and after an expiry reconnects at most once and runs it again |
| LibSql.LibSqlStore.ReserveSecretRowId | crates/secrets-store-libsql/src/store.rs:130-163 | a reported id is past everything reserved before; nothing else changes |
| LibSql.LibSqlStore.PutSecret | crates/secrets-store-libsql/src/store.rs:165-247 | inserts at most its one row and reports success only if it did |
| LibSql.LibSqlStore.AppendAudit | crates/secrets-store-libsql/src/store.rs:337-350 | does exactly the append: tail, link, insert with retry, barrier |
| LibSql.ReserveOnce | crates/secrets-store-libsql/src/store.rs:130-163 | exactly when a reservation succeeds, what id it tells, and where the counter stands, for all fates of its attempts and at the top of the range |
| LibSql.PutOnce | crates/secrets-store-libsql/src/store.rs:165-247 | exactly when a put inserts and exactly when it reports success, for all fates of its attempts |
| LibSql.PutErrorMeansAbsent | crates/secrets-store-libsql/src/store.rs:172-174 | a reported error means nothing was inserted exactly when no landing went unreported |
| LibSql.AppendOnce | crates/secrets-store-libsql/src/store.rs:337-350 | an append keeps a verifying log verifying, adds its row at most once, and a reported success is in the log once |
| LibSql.RunSound | crates/secrets-store-libsql/src/store.rs:130-350 | over any run and any schedule of failures the tables stay sound and only grow |
| LibSql.RunRefines | crates/secrets-store-libsql/src/store.rs:130-350 | over any run and any schedule of failures the tables are those of the in-memory store given exactly the writes that landed |
| LibSql.SmoothAnswers | crates/secrets-store-libsql/src/store.rs:165-174 | without failures it answers as the in-memory store does |
| LibSql.ReservedIdsIncrease | crates/secrets-store-libsql/src/store.rs:130-163 | reported ids strictly increase, so none is reported twice |
| LibSql.LockedAppendsVerify | crates/secrets-store-libsql/src/store.rs:65-71 | however the round trips of many threads interleave under the lock, the log verifies and is what it was followed by one row for each append that inserted one, in the order of the lock |
| LibSql.AppendAccounted | crates/secrets-store-libsql/src/store.rs:337-350 | each append has at most one row and no two share one; a reported number is that row's and it is in the log once; an error with a row needs an insert that committed unreported or a failed barrier |
| LibSql.WorkAccounted | crates/secrets-store-libsql/src/store.rs:130-247 | however the round trips of reservations and puts interleave with each other and with appends, the table gains one row for each that inserted one and no row id twice, a put told so has its row in, and reported ids strictly increase |
| LibSql.AloneIsTheCall | crates/secrets-store-libsql/src/store.rs:337-350 | left alone, the round trips of an append come to exactly what the call does |
| LibSql.WithoutLockRowLost | crates/secrets-store-libsql/src/store.rs:65-71 | without the lock two appends claim one number and the second is lost |
| Witness.HypothesesMet | crates/secrets-engine/src/vault/crypto.rs:51-80 | an environment and a history exist that meet every hypothesis and have a vault |

## Left out

- Real cryptography (XChaCha20-Poly1305, Argon2id, HKDF, BLAKE3), constant-time comparison and zeroization: library behaviour, here functions of the environment.
- gRPC, Unix sockets, peer credentials, the CLI and rendering (`secretd`, `secretctl`, `secrets-proto`): plumbing.
- The event channel and RFC 3339 text: cosmetic; timestamps are opaque text, given with each call.
- JSON text: details are JSON values; their serialisation is a function of the environment.
- The remote-client registry (`register_remote_client`, the registry check of `relay_mint_remote`): mints are modelled for every local and remote binding, so what is proved holds for those the registry lets through.
- Threads inside the engine and several engines over one store: calls are sequential; why is shown by `Anchors.OverlapBreaksAnchor`.
- Store failures in the in-memory store (a poisoned mutex) and clock readings that differ within one call.
- Engines.Engine.InitVault: the panic on Argon2 parameters or a salt the library rejects is modelled as a failure without effect.
- Engines.Engine.Unlock: likewise.
- Effects.RevokeRelayEffect: counts are the number of bearers modulo 2^32, as the u32 arithmetic of a release build gives.
- LibSql.LibSqlStore: only the counter, the secrets and the audit table. Where the other tables differ from the in-memory store is not modelled: disabled keyslots are not loaded (schema.rs:136-138) nor disabled relay policies listed (schema.rs:169-170), a policy upsert keeps the stored row id even when given another (schema.rs:164-166), and the bearer table rejects bindings to a process id alone, which the engine's principal gate admits (schema.rs:82).
- UTF-8: strings are their bytes, and ASCII case folding is on bytes.
- `config.rs`, `paths.rs`, `guard.rs`, the CA, injection and proxy code: short checks or unwritten.
