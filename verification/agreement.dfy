/**
 * The `RevokableAgreement` contract of contracts/src/Agreement.ts as a pure state
 * machine: the seven on-chain state fields form a `State` record, and each
 * `@method` is a function from a snapshot of that record and a private key to
 * either the next snapshot or the abort caused by a failed key assertion.
 *
 * Modelling assumptions:
 * - `PrivateKey.toPublicKey()` is an arbitrary function `derive` passed in by the caller.
 * - Each `if` on a `Bool` is taken on the Bool's value, as the code reads.
 * - Reading state with `getAndRequireEquals` is reading the snapshot.
 */
module Agreement {
  import opened Wrappers

  type PublicKey(==)
  type PrivateKey

  /** The agreed statement, a `CircuitString` stored at `init` and never inspected again. */
  type Statement(==)

  datatype Party = Claimant | Signer {
    function Other(): Party {
      match this
      case Claimant => Signer
      case Signer => Claimant
    }
  }

  /** The seven `@state` fields of the contract. */
  datatype State = State(
    claimant: PublicKey,
    signer: PublicKey,
    statement: Statement,
    claimantSigned: bool,
    signerSigned: bool,
    claimantRevoked: bool,
    signerRevoked: bool)
  {
    /** The public key a party must prove ownership of. */
    function Address(p: Party): PublicKey {
      match p
      case Claimant => claimant
      case Signer => signer
    }

    predicate Signed(p: Party) {
      match p
      case Claimant => claimantSigned
      case Signer => signerSigned
    }

    predicate Revoked(p: Party) {
      match p
      case Claimant => claimantRevoked
      case Signer => signerRevoked
    }

    function WithSigned(p: Party): State {
      match p
      case Claimant => this.(claimantSigned := true)
      case Signer => this.(signerSigned := true)
    }

    function WithRevoked(p: Party): State {
      match p
      case Claimant => this.(claimantRevoked := true)
      case Signer => this.(signerRevoked := true)
    }
  }

  /** The failed `assertEquals` between the derived and the stored public key. */
  datatype AgreementError = KeyMismatch

  /** A party can only have revoked what it has signed. */
  predicate RevokedImpliesSigned(s: State) {
    (s.claimantRevoked ==> s.claimantSigned) && (s.signerRevoked ==> s.signerSigned)
  }

  /** `t` is a possible later state of `s`: the fields written by `init` are the
      same and no flag has gone back from true to false. */
  predicate Extends(s: State, t: State) {
    && t.claimant == s.claimant
    && t.signer == s.signer
    && t.statement == s.statement
    && (s.claimantSigned ==> t.claimantSigned)
    && (s.signerSigned ==> t.signerSigned)
    && (s.claimantRevoked ==> t.claimantRevoked)
    && (s.signerRevoked ==> t.signerRevoked)
  }

  /** Party `p`'s two flags are the same in `s` and `t`. */
  predicate SameFlags(s: State, t: State, p: Party) {
    t.Signed(p) == s.Signed(p) && t.Revoked(p) == s.Revoked(p)
  }

  /** `init`: stores the constructor's keys and statement and clears all four flags. */
  function Init(claimant: PublicKey, signer: PublicKey, statement: Statement): (s: State)
    ensures s.claimant == claimant && s.signer == signer && s.statement == statement
    ensures !s.claimantSigned && !s.signerSigned && !s.claimantRevoked && !s.signerRevoked
    ensures RevokedImpliesSigned(s)
  {
    State(claimant, signer, statement, false, false, false, false)
  }

  /** The body shared by `claimantAgree` and `signerAgree`. */
  function Agree(s: State, p: Party, key: PrivateKey, derive: PrivateKey -> PublicKey): Result<State, AgreementError> {
    if !s.Signed(p) then
      if derive(key) == s.Address(p) then Ok(s.WithSigned(p)) else Err(KeyMismatch)
    else
      Ok(s)
  }

  /** The body shared by `claimantRevoke` and `signerRevoke`. */
  function Revoke(s: State, p: Party, key: PrivateKey, derive: PrivateKey -> PublicKey): Result<State, AgreementError> {
    if s.Signed(p) && !s.Revoked(p) then
      if derive(key) == s.Address(p) then Ok(s.WithRevoked(p)) else Err(KeyMismatch)
    else
      Ok(s)
  }

  /** `claimantAgree`: the claimant's key signs an unsigned agreement; a signed one is left alone. */
  function ClaimantAgree(s: State, key: PrivateKey, derive: PrivateKey -> PublicKey): (r: Result<State, AgreementError>)
    ensures !s.claimantSigned && derive(key) == s.claimant ==> r == Ok(s.(claimantSigned := true))
    ensures !s.claimantSigned && derive(key) != s.claimant ==> r == Err(KeyMismatch)
    ensures s.claimantSigned ==> r == Ok(s)
  {
    Agree(s, Claimant, key, derive)
  }

  /** `claimantRevoke`: the claimant's key revokes a signed, unrevoked agreement; otherwise nothing happens. */
  function ClaimantRevoke(s: State, key: PrivateKey, derive: PrivateKey -> PublicKey): (r: Result<State, AgreementError>)
    ensures s.claimantSigned && !s.claimantRevoked && derive(key) == s.claimant ==> r == Ok(s.(claimantRevoked := true))
    ensures s.claimantSigned && !s.claimantRevoked && derive(key) != s.claimant ==> r == Err(KeyMismatch)
    ensures !s.claimantSigned || s.claimantRevoked ==> r == Ok(s)
  {
    Revoke(s, Claimant, key, derive)
  }

  /** `signerAgree`: the signer's key signs an unsigned agreement; a signed one is left alone. */
  function SignerAgree(s: State, key: PrivateKey, derive: PrivateKey -> PublicKey): (r: Result<State, AgreementError>)
    ensures !s.signerSigned && derive(key) == s.signer ==> r == Ok(s.(signerSigned := true))
    ensures !s.signerSigned && derive(key) != s.signer ==> r == Err(KeyMismatch)
    ensures s.signerSigned ==> r == Ok(s)
  {
    Agree(s, Signer, key, derive)
  }

  /** `signerRevoke`: the signer's key revokes a signed, unrevoked agreement; otherwise nothing happens. */
  function SignerRevoke(s: State, key: PrivateKey, derive: PrivateKey -> PublicKey): (r: Result<State, AgreementError>)
    ensures s.signerSigned && !s.signerRevoked && derive(key) == s.signer ==> r == Ok(s.(signerRevoked := true))
    ensures s.signerSigned && !s.signerRevoked && derive(key) != s.signer ==> r == Err(KeyMismatch)
    ensures !s.signerSigned || s.signerRevoked ==> r == Ok(s)
  {
    Revoke(s, Signer, key, derive)
  }

  // ---------------------------------------------------------------------------
  // Properties of single transitions
  // ---------------------------------------------------------------------------

  /** One call of one of the four `@method`s, with the private key it is given. */
  datatype Call = AgreeCall(party: Party, key: PrivateKey) | RevokeCall(party: Party, key: PrivateKey)

  function Step(s: State, c: Call, derive: PrivateKey -> PublicKey): Result<State, AgreementError> {
    match c
    case AgreeCall(p, k) => if p == Claimant then ClaimantAgree(s, k, derive) else SignerAgree(s, k, derive)
    case RevokeCall(p, k) => if p == Claimant then ClaimantRevoke(s, k, derive) else SignerRevoke(s, k, derive)
  }

  /** Every successful transition keeps the `init` fields, never clears a flag,
      preserves "revoked implies signed", and leaves the other party's flags alone. */
  lemma StepProperties(s: State, c: Call, derive: PrivateKey -> PublicKey)
    requires Step(s, c, derive).Ok?
    ensures Extends(s, Step(s, c, derive).value)
    ensures RevokedImpliesSigned(s) ==> RevokedImpliesSigned(Step(s, c, derive).value)
    ensures SameFlags(s, Step(s, c, derive).value, c.party.Other())
  {
  }

  /** A transition changes the state exactly when the acting party's flag is
      raised: a fresh signature, or a first revocation of a signed agreement.
      It then raises that one flag and changes nothing else. */
  lemma StepRaisesOneFlag(s: State, c: Call, derive: PrivateKey -> PublicKey)
    requires Step(s, c, derive).Ok?
    ensures Step(s, c, derive).value != s <==>
      (c.AgreeCall? && !s.Signed(c.party)) || (c.RevokeCall? && s.Signed(c.party) && !s.Revoked(c.party))
    ensures Step(s, c, derive).value != s ==> derive(c.key) == s.Address(c.party)
    ensures Step(s, c, derive).value != s ==>
      Step(s, c, derive).value == (if c.AgreeCall? then s.WithSigned(c.party) else s.WithRevoked(c.party))
  {
  }

  /** Once a party has revoked, none of its calls changes anything, whatever the key. */
  lemma RevokedIsFrozen(s: State, p: Party, key: PrivateKey, derive: PrivateKey -> PublicKey)
    requires RevokedImpliesSigned(s) && s.Revoked(p)
    ensures Step(s, AgreeCall(p, key), derive) == Ok(s)
    ensures Step(s, RevokeCall(p, key), derive) == Ok(s)
  {
  }

  // ---------------------------------------------------------------------------
  // Sequences of transactions
  // ---------------------------------------------------------------------------

  /** The state after a sequence of transactions; an aborted one is rejected and
      leaves the state as it was. */
  function Run(s: State, calls: seq<Call>, derive: PrivateKey -> PublicKey): State
    decreases |calls|
  {
    if |calls| == 0 then s
    else
      var t := match Step(s, calls[0], derive)
        case Ok(next) => next
        case Err(_) => s;
      Run(t, calls[1..], derive)
  }

  /** Over any sequence of transactions the `init` fields stay fixed, flags only
      rise, "revoked implies signed" is kept, and a revoked party stays frozen. */
  lemma {:induction false} RunProperties(s: State, calls: seq<Call>, derive: PrivateKey -> PublicKey, p: Party)
    requires RevokedImpliesSigned(s)
    ensures Extends(s, Run(s, calls, derive))
    ensures RevokedImpliesSigned(Run(s, calls, derive))
    ensures s.Revoked(p) ==> SameFlags(s, Run(s, calls, derive), p)
    decreases |calls|
  {
    if |calls| > 0 {
      var t := match Step(s, calls[0], derive)
        case Ok(next) => next
        case Err(_) => s;
      if Step(s, calls[0], derive).Ok? {
        StepProperties(s, calls[0], derive);
        if s.Revoked(p) && calls[0].party == p {
          RevokedIsFrozen(s, p, calls[0].key, derive);
        }
      }
      RunProperties(t, calls[1..], derive, p);
    }
  }

  /** Every state reachable from `init` satisfies "revoked implies signed" and
      carries the constructor's keys and statement. */
  lemma ReachableStates(claimant: PublicKey, signer: PublicKey, statement: Statement,
                        calls: seq<Call>, derive: PrivateKey -> PublicKey)
    ensures var t := Run(Init(claimant, signer, statement), calls, derive);
      RevokedImpliesSigned(t) && t.claimant == claimant && t.signer == signer && t.statement == statement
  {
    RunProperties(Init(claimant, signer, statement), calls, derive, Claimant);
  }

  /** A full lifecycle between two distinct parties: each signs, the claimant
      revokes, a second revocation and a late signature change nothing, and the
      claimant's key cannot sign for the signer. */
  lemma Lifecycle(a: PublicKey, b: PublicKey, statement: Statement,
                  ka: PrivateKey, kb: PrivateKey, derive: PrivateKey -> PublicKey)
    requires derive(ka) == a && derive(kb) == b && a != b
    ensures var s0 := Init(a, b, statement);
      && SignerAgree(s0, ka, derive) == Err(KeyMismatch)
      && ClaimantRevoke(s0, ka, derive) == Ok(s0)
      && var s1 := ClaimantAgree(s0, ka, derive).value;
      && s1.claimantSigned && !s1.signerSigned
      && var s2 := SignerAgree(s1, kb, derive).value;
      && s2.claimantSigned && s2.signerSigned && !s2.claimantRevoked
      && var s3 := ClaimantRevoke(s2, ka, derive).value;
      && s3.claimantRevoked && !s3.signerRevoked
      && ClaimantRevoke(s3, ka, derive) == Ok(s3)
      && ClaimantAgree(s3, ka, derive) == Ok(s3)
  {
  }

  // ---------------------------------------------------------------------------
  // The revocation guard as JavaScript evaluates it
  // ---------------------------------------------------------------------------

  /** `claimantRevoke`/`signerRevoke` when the `if` tests the truthiness of the
      `Bool` object returned by `and`/`not` rather than its value: an object is
      always truthy, so the key check and the write always happen. */
  function RevokeAsEvaluated(s: State, p: Party, key: PrivateKey, derive: PrivateKey -> PublicKey): (r: Result<State, AgreementError>)
    ensures r.Ok? <==> derive(key) == s.Address(p)
    ensures r.Ok? ==> r.value.Revoked(p) && r.value.Signed(p) == s.Signed(p)
    ensures r.Ok? ==> Extends(s, r.value) && SameFlags(s, r.value, p.Other())
  {
    if derive(key) == s.Address(p) then Ok(s.WithRevoked(p)) else Err(KeyMismatch)
  }

  /** Evaluated that way, a claimant can revoke an agreement it never signed,
      breaking "revoked implies signed" right after `init`. */
  lemma UnguardedRevokeBreaksInvariant(a: PublicKey, b: PublicKey, statement: Statement,
                                       ka: PrivateKey, derive: PrivateKey -> PublicKey)
    requires derive(ka) == a
    ensures RevokeAsEvaluated(Init(a, b, statement), Claimant, ka, derive).Ok?
    ensures !RevokedImpliesSigned(RevokeAsEvaluated(Init(a, b, statement), Claimant, ka, derive).value)
    ensures Revoke(Init(a, b, statement), Claimant, ka, derive) == Ok(Init(a, b, statement))
  {
  }
}
