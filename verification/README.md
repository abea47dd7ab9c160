# smart-resume core in Dafny

This project models the two core pieces of the smart-resume zkApp contracts.

- `RevokableAgreement` (contracts/src/Agreement.ts) is the agreement between a claimant and a signer on a statement. Its seven `@state` fields are the record `Agreement.State`: two public keys, the statement, and two independent boolean pairs, `*Signed` and `*Revoked`, one pair per party. `init` and the four `@method`s (`claimantAgree`, `claimantRevoke`, `signerAgree`, `signerRevoke`) are pure functions. Each one takes a snapshot and a private key. It returns the next snapshot, or `Err(KeyMismatch)` when the `assertEquals` on the derived public key aborts the call. A call whose guard is false returns the snapshot unchanged. `Agreement.Run` applies a sequence of transactions the way the ledger does: an aborted transaction is rejected and leaves the state as it was.
- `LongString` (contracts/src/LongString.ts) is the codec. `split` cuts a string into 127-character `CircuitString` chunks, and `toFields` flattens the chunks to field elements. `merge` regroups fields into 127-character groups, and `fromFields` concatenates the groups. The file also has `append`, `empty`, `hash`, `hashWithSalt`, `sizeInFields`, `toValue` and `fromValue`. A string is a sequence of UTF-16 code units (`JsString`), the unit JavaScript's `length` and `substring` count. A field element is a `nat`.

Assumptions the model states explicitly:

- `PrivateKey.toPublicKey()` is an arbitrary function `derive: PrivateKey -> PublicKey`, passed to every transition. `Poseidon.hash` is an arbitrary function `h: seq<Field> -> Field`. Nothing is assumed about either.
- One code unit is encoded as one field element, its value (`LongStringCodec.Enc`). There is no padding, which is what `sizeInFields() == value.length` presumes. So lengths, chunk boundaries, `sizeInFields` and the round-trip condition count code units as the source does: a character outside the Basic Multilingual Plane counts twice. A field of 65536 or more has no preimage and does not decode. The model fails it with `NotACharCode`; that failure is the model's own choice, because line 31 shows no failure path. Every field passed to `merge` is decoded, because line 31 maps all of them to `Character`s before any grouping.
- In `merge`, line 37 calls `string.append(...)` and drops the result. The model takes the grouping the loop describes: each character joins the current group.
- The contract as written has no salted statement commitment, tag commitment, tri-state progress counter, `isInEffect` or `isStatement`. None is modelled.

Files: `wrappers.dfy` (the `Result` type), `seqs.dfy` (`Flatten`), `long_string.dfy` (module `LongStringCodec`), `agreement.dfy` (module `Agreement`).

## Model

| member | source | states |
|---|---|---|
| `Agreement.Init` | contracts/src/Agreement.ts:29-39 | after `init`, `claimant`, `signer` and `statement` hold the constructor's values and all four flags are false, so "revoked implies signed" holds |
| `Agreement.ClaimantAgree` | contracts/src/Agreement.ts:41-52 | unsigned and the derived key is the claimant: only `claimantSigned` becomes true. Unsigned and another key: the call aborts. Already signed: the state is returned unchanged for any key |
| `Agreement.ClaimantRevoke` | contracts/src/Agreement.ts:54-66 | signed, not revoked and the claimant's key: only `claimantRevoked` becomes true. Signed, not revoked and another key: the call aborts. Unsigned or already revoked: no change for any key |
| `Agreement.SignerAgree` | contracts/src/Agreement.ts:68-79 | the same three cases as `claimantAgree`, over `signerSigned` and `signer` |
| `Agreement.SignerRevoke` | contracts/src/Agreement.ts:81-93 | the same three cases as `claimantRevoke`, over `signerSigned`, `signerRevoked` and `signer` |
| `Agreement.StepProperties` | contracts/src/Agreement.ts:41-93 | a successful call of any of the four methods keeps `claimant`, `signer` and `statement`, never resets a flag to false, preserves "revoked implies signed", and leaves the other party's flags unchanged |
| `Agreement.StepRaisesOneFlag` | contracts/src/Agreement.ts:41-93 | a successful call changes the state if and only if it is an agree by an unsigned party, or a revoke by a signed and unrevoked party. A call that changes the state was given that party's key, and it raises exactly that party's signed or revoked flag and nothing else |
| `Agreement.RevokedIsFrozen` | contracts/src/Agreement.ts:44-65 | when "revoked implies signed" holds and a party has revoked, both of that party's calls return the state unchanged for every key |
| `Agreement.RunProperties` | contracts/src/Agreement.ts:41-93 | over any sequence of transactions, aborted ones rejected: the `init` fields stay fixed, flags only rise, "revoked implies signed" is kept, and a revoked party's flags never change again |
| `Agreement.ReachableStates` | contracts/src/Agreement.ts:29-93 | every state reached from `init` by any transactions satisfies "revoked implies signed" and holds the constructor's keys and statement |
| `Agreement.Lifecycle` | contracts/src/Agreement.ts:29-93 | with distinct parties: the claimant's key cannot sign for the signer, and revoking before signing does nothing. Both parties then sign and the claimant revokes. After that, revoking again or agreeing again leaves the state unchanged |
| `Agreement.RevokeAsEvaluated` | contracts/src/Agreement.ts:58-61 | the revoke body with its guard always taken: the call succeeds exactly for the party's key. It then sets the party's revoked flag. The party's signed flag, the other party's flags, both keys and the statement are left unchanged |
| `Agreement.UnguardedRevokeBreaksInvariant` | contracts/src/Agreement.ts:54-66 | with the guard always taken, the claimant can revoke right after `init`, leaving an agreement revoked but unsigned; the guarded `claimantRevoke` leaves that state unchanged |
| `LongStringCodec.DecodeChar` | contracts/src/LongString.ts:31 | a field decodes to a code unit exactly when it is below 65536, and that unit encodes back to the field; any other field gives `NotACharCode` for that field |
| `LongStringCodec.DecodeString` | contracts/src/LongString.ts:31 | a field sequence decodes exactly when every field is a code unit; the decoded string encodes back to the same fields; a failure names one of the offending fields |
| `LongStringCodec.DecodeEncodeString` | contracts/src/LongString.ts:31 | decoding the per-character encoding of any string gives that string back |
| `LongStringCodec.Split` | contracts/src/LongString.ts:22-28 | the chunk count is ceil(length / 127): zero chunks for the empty string, otherwise 127·(count-1) < length <= 127·count. Every chunk has 1 to 127 characters, and every chunk but the last has exactly 127 |
| `LongStringCodec.SplitConcat` | contracts/src/LongString.ts:22-28 | the chunks of `split` concatenate back to the original string |
| `LongStringCodec.ToFields` | contracts/src/LongString.ts:52-54 | the flattened per-chunk encodings are the per-character encoding of the whole value, one field per character, in order |
| `LongStringCodec.SizeInFields` | contracts/src/LongString.ts:67-69 | `sizeInFields` is the number of fields `toFields` produces |
| `LongStringCodec.ToFieldsInjective` | contracts/src/LongString.ts:52-54 | two values have the same fields if and only if they are equal |
| `LongStringCodec.FromString` | contracts/src/LongString.ts:10-12 | the fields of `fromString(x)` are the encoding of `x`, and its size is the length of `x` |
| `LongStringCodec.Empty` | contracts/src/LongString.ts:18-20 | `empty()` has no fields and size zero |
| `LongStringCodec.Append` | contracts/src/LongString.ts:48-50 | the fields of `a.append(b)` are the fields of `a` followed by those of `b`, and the sizes add |
| `LongStringCodec.AppendLaws` | contracts/src/LongString.ts:48-50 | `append` is associative, `empty()` is a left and a right identity, and `toFields(a.append(b)) == toFields(a) ++ toFields(b)` |
| `LongStringCodec.FullGroups` | contracts/src/LongString.ts:39-43 | the groups `merge` pushes: floor(n / 127) groups, each exactly 127 characters |
| `LongStringCodec.CollectGroups` | contracts/src/LongString.ts:32-44 | the grouping loop pushes exactly the consecutive complete 127-character groups, and the group it holds when the loop ends is the remaining suffix, shorter than 127 |
| `LongStringCodec.Merge` | contracts/src/LongString.ts:30-46 | the loop of `merge` succeeds exactly when every field is a code unit. It then emits floor(n / 127) groups: the consecutive 127-character runs of the decoded characters, in order, with the last n mod 127 dropped |
| `LongStringCodec.FromFields` | contracts/src/LongString.ts:56-63 | `fromFields` succeeds exactly when every field is a code unit. Its result has n - n mod 127 characters, and its fields are the first n - n mod 127 input fields |
| `LongStringCodec.AppendGroups` | contracts/src/LongString.ts:57-61 | appending each group to `empty()` in turn gives the concatenation of the groups, in order |
| `LongStringCodec.FromFieldsLoop` | contracts/src/LongString.ts:56-63 | running the `merge` loop and then the append loop gives exactly `FromFields`: the same error, or the same value |
| `LongStringCodec.FromFieldsToFields` | contracts/src/LongString.ts:56-63 | `fromFields(toFields(s))` is the longest prefix of `s` whose length is a multiple of 127 |
| `LongStringCodec.RoundTripIff` | contracts/src/LongString.ts:56-63 | `fromFields(toFields(s)) == s` if and only if the length of `s` is a multiple of 127 |
| `LongStringCodec.TrailingChunkDropped` | contracts/src/LongString.ts:39-45 | `"a"` encodes to the one field 97, and `fromFields` of that is the empty string |
| `LongStringCodec.MergeFixed` | contracts/src/LongString.ts:30-46 | `merge` with the partial group pushed after the loop: it regroups the decoded characters exactly into the chunks `split` makes |
| `LongStringCodec.SurrogatePairCountsTwice` | contracts/src/LongString.ts:56-63 | a surrogate pair followed by 126 units is 128 units long, and `fromFields(toFields(s))` keeps only its first 127 units |
| `LongStringCodec.FromFieldsFixedLoop` | contracts/src/LongString.ts:56-63 | running `MergeFixed` and then the append loop gives exactly `FromFieldsFixed` |
| `LongStringCodec.FromFieldsFixed` | contracts/src/LongString.ts:56-63 | corrected `fromFields` succeeds exactly when every field is a code unit, and the result's fields are the input fields |
| `LongStringCodec.FixedRoundTrip` | contracts/src/LongString.ts:56-63 | with the corrected regrouping, `fromFields(toFields(s)) == s` for every `s` |
| `LongStringCodec.Hash` | contracts/src/LongString.ts:83-85 | `hash()` is `h` applied to the per-character encoding of the value |
| `LongStringCodec.HashWithSalt` | contracts/src/LongString.ts:79-81 | `hashWithSalt(salt)` is `h` applied to the salt followed by the per-character encoding of the value |
| `LongStringCodec.SaltedHashInputInjective` | contracts/src/LongString.ts:79-81 | two salted hash inputs are equal if and only if both the salts and the values are equal |
| `LongStringCodec.HashAppend` | contracts/src/LongString.ts:79-85 | the plain and the salted hash of `a.append(b)` hash the fields of `a` followed by the fields of `b` |
| `LongStringCodec.ToValue` | contracts/src/LongString.ts:71-73 | `toValue` returns the string that `fromString` turns back into the receiver, whatever the argument; its length is the receiver's size |
| `LongStringCodec.FromValue` | contracts/src/LongString.ts:75-77 | `fromValue` returns a `LongString` argument itself; for a string argument, its `toValue` is that string and its fields are that string's encoding |
| `LongStringCodec.ValueRoundTrip` | contracts/src/LongString.ts:71-77 | `fromValue` returns a `LongString` argument as it is and wraps a string. `toValue` of a wrapped string gives the string back, for any argument. `fromValue` of `toValue` gives back the same `LongString` |

## Left out

- The o1js runtime is not part of this model: `SmartContract`, `@state`/`State`, `getAndRequireEquals` and deployment. Each method is a pure transition on a snapshot. `Agreement.Run` stands in for the ledger ordering transactions.
- `PrivateKey.toPublicKey` and `Poseidon.hash` are foreign cryptography. They are function parameters, and no collision resistance or one-wayness is assumed.
- `CircuitString` and `Character` internals are not part of this model. This covers padding to the 128-character maximum and the exact field of a character. The code-unit encoding above stands in for them. Lengths, chunking, `sizeInFields` and the round-trip condition count UTF-16 code units, as the source does.
- `LongStringCodec.DecodeChar`: decoding a field of 65536 or more fails with `NotACharCode`. The source shows no failure path at line 31, so what `Character` does with such a field is not modelled.
- Field arithmetic is left out: no field operation is performed, so elements are unbounded `nat`s with no reduction modulo the field order.
- `merge` line 37: the model assumes `append` accumulates. If `CircuitString.append` only returns a new string, every pushed group would be empty. The code does not show which holds.
- The `if` on an o1js `Bool` at Agreement.ts lines 44, 58, 71 and 85 is modelled as a branch on the Bool's value. What JavaScript evaluates instead is under Findings. For the agree methods, the same reading means a wrong key aborts a call on an already signed agreement instead of doing nothing. The state is unchanged either way, so no separate member models it.
- The constructor's `appAddress`, `toAuxiliary`, `check` and `fromCircuitString` are trivial or library glue. `fromCircuitString` is covered by the per-character encoding assumption.
- contracts/src/Agreement.test.ts is left out. It tests fields and methods (`num`, `update`) that `RevokableAgreement` does not have.
- contracts/src/Resume.ts is left out. It folds `isInEffect()` over agreements, and that method is not defined in Agreement.ts.

## Findings

| source | as written | input that shows it | evidently intended | confidence | as-written member | corrected member |
|---|---|---|---|---|---|---|
| contracts/src/LongString.ts:39-45 | `merge` pushes a group only when it reaches 127 characters, and nothing is pushed after the loop, so a trailing partial group is lost | `fromFields(toFields("a"))` gives `""` | `fromFields(toFields(s)) == s` for every `s` | high; not executed | `LongStringCodec.TrailingChunkDropped` | `LongStringCodec.FixedRoundTrip` |
| contracts/src/Agreement.ts:58 | the revoke guard is a JavaScript `if` on the `Bool` object from `and`/`not`. An object is always truthy, so the key check and the write of `claimantRevoked` always run (the same at line 85 for the signer) | `init`, then `claimantRevoke` with the claimant's key: the result is revoked but unsigned | revocation only of a signed, unrevoked agreement | medium (depends on o1js `Bool` being an object); not executed | `Agreement.UnguardedRevokeBreaksInvariant` | `Agreement.ClaimantRevoke` |
