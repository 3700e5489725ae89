// Verification of an assertion against stored ceremony state and a stored credential.
module Authentication {
  import opened Base
  import opened Values
  import opened AuthenticatorData
  import opened InputHandlers
  import opened Extensions
  import opened ExtensionResults
  import opened Ceremonies
  import opened Credentials
  import opened RelyingParty

  datatype AuthError =
    | InvalidDependencies | InvalidCredential | Expired | InvalidCeremony | BindingsDiffer | MalformedResponse
    | ExtensionPolicyFailure | CredentialRpIdMismatch | CredentialNotAllowed | OwnershipMismatch | UserHandleMissing
    | ClientDataRejected | HashMismatch | PresenceMissing | VerificationMissing | BackupStateInvalid
    | BackupEligibilityMismatch | DecoderMissing | UnsupportedAlgorithm | SignatureInvalid | CloneRiskRejected
    | StateMismatch

  /** Cryptography and the text layers, as given functions. */
  datatype Crypto = Crypto(
    hash: string -> seq<byte>,
    clientDataFits: (string, Operation, seq<byte>, OriginPolicy) -> bool,
    verifies: (PublicKey, seq<byte>, seq<byte>) -> bool,
    extensionMap: seq<byte> -> Option<map<string, Value>>)

  /** A browser response; an empty octet string is an unset member. */
  datatype AuthenticationResponse = AuthenticationResponse(
    kind: CredentialType, rawId: seq<byte>, clientDataJson: string, authenticatorData: seq<byte>, signature: seq<byte>,
    userHandle: seq<byte>, attachment: Attachment, client: map<string, Value>)

  datatype AuthPolicy = AuthPolicy(
    hasVerifier: bool, accepts: Option<int -> bool>, hasExtensionDecoder: bool, registry: Option<Registry>,
    rejectUnrequested: bool, rejectUnknown: bool, appId: string, counter: CounterPolicy)

  datatype FinishRequest = FinishRequest(
    state: AuthenticationState, response: AuthenticationResponse, credential: CredentialRecord, uvAuthorized: bool,
        now: Time)

  datatype AuthenticationResult = AuthenticationResult(
    credential: CredentialRecord, authenticatedAs: seq<byte>, counter: CounterStatus, update: CredentialUpdate,
    extensions: seq<ExtensionResult>, userPresent: bool, userVerified: bool, uvPending: bool)

  // ----- Checks, in the order they run -----

  function DependencyFault(policy: AuthPolicy, c: CredentialRecord): Option<AuthError> {
    if !policy.hasVerifier then Some(InvalidDependencies)
    else if !ValidRecord(c) then Some(InvalidCredential)
    else if policy.counter.rejectCloneRisk && policy.counter.updateOnCloneRisk then Some(InvalidDependencies)
    else None
  }

  predicate HasExpired(expiresAt: Time, now: Time) { expiresAt != 0 && now >= expiresAt }

  predicate ShapeOk(r: AuthenticationResponse) {
    r.kind.PublicKeyType? && r.rawId != [] && r.clientDataJson != "" && r.authenticatorData != [] && r.signature != []
  }

  predicate Allowed(allow: seq<Descriptor>, rawId: seq<byte>) {
    allow == [] || exists i :: 0 <= i < |allow| && allow[i].id == rawId
  }

  function CredentialFault(s: AuthenticationState, r: AuthenticationResponse, c: CredentialRecord): Option<AuthError> {
    if c.rpId == "" || c.rpId != s.rpId then Some(CredentialRpIdMismatch)
    else if c.id != r.rawId || !Allowed(s.allow, r.rawId) then Some(CredentialNotAllowed)
    else None
  }

  function UserFault(s: AuthenticationState, r: AuthenticationResponse, c: CredentialRecord): Option<AuthError> {
    if s.expectedUser != [] then
      if c.user != s.expectedUser || (r.userHandle != [] && r.userHandle != s.expectedUser) then Some(OwnershipMismatch)
      else None
    else if r.userHandle == [] then Some(UserHandleMissing)
    else if r.userHandle != c.user then Some(OwnershipMismatch)
    else None
  }

  /** The hash the authenticator must have signed: of the RP ID, or of the agreed AppID when the client used it. */
  function ExpectedHash(crypto: Crypto, policy: AuthPolicy, s: AuthenticationState,
      r: AuthenticationResponse): Option<seq<byte>> {
    if !("appid" in r.client && r.client["appid"] == Bool(true)) then Some(crypto.hash(s.rpId))
    else if "appid" !in s.requested.inputs || !s.requested.inputs["appid"].TextInput? then None
    else
      var appId := s.requested.inputs["appid"].text;
      if appId == "" || policy.appId == "" || appId != policy.appId then None else Some(crypto.hash(appId))
  }

  function VerifyAssertionData(crypto: Crypto, policy: AuthPolicy, s: AuthenticationState, r: AuthenticationResponse,
                               c: CredentialRecord): Result<Parsed, AuthError>
  {
    match Parse(r.authenticatorData)
    case Err(_) => Err(MalformedResponse)
    case Ok(p) =>
      if HasAttested(p.flags) then Err(MalformedResponse)
      else if Some(p.rpIdHash) != ExpectedHash(crypto, policy, s, r) then Err(HashMismatch)
      else if !UserPresent(p.flags) then Err(PresenceMissing)
      else if s.uv.UvRequired? && !UserVerified(p.flags) then Err(VerificationMissing)
      else if BackedUp(p.flags) && !BackupEligible(p.flags) then Err(BackupStateInvalid)
      else if BackupEligible(p.flags) != c.backupEligible then Err(BackupEligibilityMismatch)
      else Ok(p)
  }

  function DecodeOutputs(crypto: Crypto, policy: AuthPolicy, p: Parsed): Result<map<string, Value>, AuthError> {
    if !HasExtensions(p.flags) then Ok(map[])
    else if !policy.hasExtensionDecoder then Err(DecoderMissing)
    else
      match crypto.extensionMap(p.extensionData)
      case None => Err(MalformedResponse)
      case Some(outputs) => Ok(outputs)
  }

  function WorkFor(policy: AuthPolicy, s: AuthenticationState, r: AuthenticationResponse, c: CredentialRecord,
                   outputs: map<string, Value>): Work
  {
    Work(Authentication, c.id, policy.registry, policy.rejectUnrequested, policy.rejectUnknown, AttachAllowed(s.allow),
         s.requested.inputs, r.client, outputs)
  }

  /** The checks that do not depend on the stored credential's mutable fields or on cryptography. */
  ghost function CeremonyFault(outside: Outside, policy: AuthPolicy, q: FinishRequest): Option<AuthError> {
    var s, r, c := q.state, q.response, q.credential;
    if DependencyFault(policy, c).Some? then DependencyFault(policy, c)
    else if HasExpired(s.expiresAt, q.now) then Some(Expired)
    else if !ValidAuthentication(outside, s) then Some(InvalidCeremony)
    else if !BindingsAgree(s.requested, policy.registry) then Some(BindingsDiffer)
    else if !ShapeOk(r) then Some(MalformedResponse)
    else if !ClientOutputsOk(r.client) then Some(ExtensionPolicyFailure)
    else if CredentialFault(s, r, c).Some? then CredentialFault(s, r, c)
    else UserFault(s, r, c)
  }

  function AssertionOf(policy: AuthPolicy, q: FinishRequest, p: Parsed): Assertion {
    Assertion(p.signCount, BackedUp(p.flags), UserVerified(p.flags), q.response.attachment, q.uvAuthorized,
              policy.counter.updateOnCloneRisk)
  }

  /** The octets the signature covers. */
  function Signed(crypto: Crypto, r: AuthenticationResponse): seq<byte> {
    r.authenticatorData + crypto.hash(r.clientDataJson)
  }

  /** Client data, authenticator data, algorithm, signature and counter. */
  function EvidenceOf(crypto: Crypto, policy: AuthPolicy, q: FinishRequest)
    : Result<(Parsed, map<string, Value>), AuthError>
  {
    var s, r, c := q.state, q.response, q.credential;
    if !crypto.clientDataFits(r.clientDataJson, Authentication, s.challenge, s.policy) then Err(ClientDataRejected)
    else
      match VerifyAssertionData(crypto, policy, s, r, c)
      case Err(e) => Err(e)
      case Ok(p) =>
        match DecodeOutputs(crypto, policy, p)
        case Err(e) => Err(e)
        case Ok(outputs) =>
          if policy.accepts.Some? && !policy.accepts.value(c.key.algorithm) then Err(UnsupportedAlgorithm)
          else if !crypto.verifies(c.key, Signed(crypto, r), r.signature) then Err(SignatureInvalid)
          else if CompareCounters(c.signCount, p.signCount).CloneRisk? && policy.counter.rejectCloneRisk
              then Err(CloneRiskRejected)
          else Ok((p, outputs))
  }

  /** Whether extension verification succeeds for this request. */
  ghost predicate ExtensionsPass(policy: AuthPolicy, q: FinishRequest, outputs: map<string, Value>) {
    var w := WorkFor(policy, q.state, q.response, q.credential, outputs);
    RemoteBound(q.state.requested, q.response.clientDataJson)
    && WithinWork(w) && (forall id :: id in WorkIds(w) ==> ResultOf(w, id).Some?)
  }

  /** The error of a finish request, or None when it is accepted. */
  ghost function FinishFault(outside: Outside, crypto: Crypto, policy: AuthPolicy,
      q: FinishRequest): Option<AuthError> {
    if CeremonyFault(outside, policy, q).Some? then CeremonyFault(outside, policy, q)
    else
      match EvidenceOf(crypto, policy, q)
      case Err(e) => Some(e)
      case Ok(evidence) => if !ExtensionsPass(policy, q, evidence.1) then Some(ExtensionPolicyFailure) else None
  }

  /** What an accepted request returns apart from its extension results. */
  predicate Returns(crypto: Crypto, policy: AuthPolicy, q: FinishRequest, result: AuthenticationResult)
    requires EvidenceOf(crypto, policy, q).Ok?
  {
    var p, c := EvidenceOf(crypto, policy, q).value.0, q.credential;
    var next := NextRecord(c, AssertionOf(policy, q, p));
    && result.credential == next
    && result.authenticatedAs == c.user
    && result.counter == CompareCounters(c.signCount, p.signCount)
    && result.update == UpdateFor(c, next)
    && result.userPresent == UserPresent(p.flags)
    && result.userVerified == UserVerified(p.flags)
    && result.uvPending == (!c.uvInitialized && UserVerified(p.flags) && !q.uvAuthorized)
  }

  method CeremonyChecks(outside: Outside, policy: AuthPolicy, q: FinishRequest) returns (fault: Option<AuthError>)
    ensures fault == CeremonyFault(outside, policy, q)
  {
    hide ValidAuthentication, ValidRecord, ClientOutputsOk, RecordedRevision, CurrentRevision, CredentialFault,
      UserFault;
    fault := DependencyFault(policy, q.credential);
    if fault.Some? {
      return;
    }
    if HasExpired(q.state.expiresAt, q.now) {
      return Some(Expired);
    }
    var valid := ValidateAuthentication(outside, q.state);
    if !valid {
      return Some(InvalidCeremony);
    }
    var agree := ValidateFinishBindings(q.state.requested.inputs, q.state.requested.bindings, policy.registry);
    if !agree {
      return Some(BindingsDiffer);
    }
    if !ShapeOk(q.response) {
      return Some(MalformedResponse);
    }
    if !ClientOutputsOk(q.response.client) {
      return Some(ExtensionPolicyFailure);
    }
    fault := CredentialFault(q.state, q.response, q.credential);
    if fault.None? {
      fault := UserFault(q.state, q.response, q.credential);
    }
  }

  /** Copies the record and assigns its four mutable fields one by one. */
  method NextState(c: CredentialRecord, a: Assertion) returns (credential: CredentialRecord, update: CredentialUpdate)
    ensures credential == NextRecord(c, a) && update == UpdateFor(c, NextRecord(c, a))
  {
    credential := c;
    var counter := CompareCounters(c.signCount, a.signCount);
    var nextSignCount := c.signCount;
    if counter.Incremented? || (counter.CloneRisk? && a.updateOnCloneRisk) {
      nextSignCount := a.signCount;
    }
    var nextUvInitialized, nextAttachment := c.uvInitialized, c.attachment;
    if !nextUvInitialized && a.userVerified && a.uvAuthorized {
      nextUvInitialized := true;
    }
    credential := credential.(signCount := nextSignCount);
    credential := credential.(backedUp := a.backedUp);
    credential := credential.(uvInitialized := nextUvInitialized);
    var attachment := NormalizedAttachment(a.attachment);
    if !attachment.NoAttachment? {
      nextAttachment := attachment;
    }
    credential := credential.(attachment := nextAttachment);
    update := CredentialUpdate(
      credential.id, c.signCount, c.backedUp, c.uvInitialized, c.attachment,
      nextSignCount, nextSignCount != c.signCount, a.backedUp, a.backedUp != c.backedUp,
      nextUvInitialized, nextUvInitialized != c.uvInitialized, nextAttachment, nextAttachment != c.attachment);
  }

  method FinishAuthentication(outside: Outside, crypto: Crypto, policy: AuthPolicy, q: FinishRequest)
    returns (r: Result<AuthenticationResult, AuthError>)
    ensures FinishFault(outside, crypto, policy, q).Some? ==> r == Err(FinishFault(outside, crypto, policy, q).value)
    ensures FinishFault(outside, crypto, policy, q).None? ==> r.Ok?
    ensures r.Ok? ==> Returns(crypto, policy, q, r.value)
    ensures r.Ok? ==> Complete(WorkFor(policy, q.state, q.response, q.credential,
              EvidenceOf(crypto, policy, q).value.1), r.value.extensions)
  {
    hide CeremonyFault, EvidenceOf, WithinWork, ResultOf, Complete, NextRecord, UpdateFor, WorkFor, WorkIds;
    var fault := CeremonyChecks(outside, policy, q);
    if fault.Some? {
      return Err(fault.value);
    }
    var evidence := EvidenceOf(crypto, policy, q);
    if evidence.Err? {
      return Err(evidence.error);
    }
    var p, outputs := evidence.value.0, evidence.value.1;
    if !RemoteBound(q.state.requested, q.response.clientDataJson) {
      return Err(ExtensionPolicyFailure);
    }
    var results := VerifyExtensions(WorkFor(policy, q.state, q.response, q.credential, outputs));
    if results.Err? {
      return Err(ExtensionPolicyFailure);
    }
    var credential, update := NextState(q.credential, AssertionOf(policy, q, p));
    return Ok(AuthenticationResult(
      credential, q.credential.user, CompareCounters(q.credential.signCount, p.signCount), update, results.value,
      UserPresent(p.flags), UserVerified(p.flags),
      !q.credential.uvInitialized && UserVerified(p.flags) && !q.uvAuthorized));
  }

  // ----- What acceptance means -----

  /** The hash in the authenticator data is that of the RP ID, or of the agreed AppID where the client used it. */
  predicate HashAgrees(crypto: Crypto, policy: AuthPolicy, q: FinishRequest, p: Parsed) {
    if "appid" in q.response.client && q.response.client["appid"] == Bool(true) then
      && policy.appId != ""
      && "appid" in q.state.requested.inputs && q.state.requested.inputs["appid"] == TextInput(policy.appId)
      && p.rpIdHash == crypto.hash(policy.appId)
    else p.rpIdHash == crypto.hash(q.state.rpId)
  }

  /** Credential, owner, relying party, allow list and expiry agree. */
  ghost predicate Tied(outside: Outside, policy: AuthPolicy, q: FinishRequest) {
    && ValidRecord(q.credential) && ValidAuthentication(outside, q.state) && q.now < q.state.expiresAt
    && q.response.rawId == q.credential.id && q.credential.rpId == q.state.rpId
    && (q.state.expectedUser == q.credential.user
        || (q.state.expectedUser == [] && q.response.userHandle == q.credential.user))
    && (q.state.expectedUser != [] ==> q.response.userHandle == [] || q.response.userHandle == q.state.expectedUser)
    && (q.state.allow == [] || exists d :: d in q.state.allow && d.id == q.credential.id)
    && (policy.accepts.Some? ==> policy.accepts.value(q.credential.key.algorithm))
  }

  /** The client data answers the ceremony, and the signature verifies under the stored key. */
  predicate Proven(crypto: Crypto, q: FinishRequest) {
    && crypto.clientDataFits(q.response.clientDataJson, Authentication, q.state.challenge, q.state.policy)
    && crypto.verifies(q.credential.key, q.response.authenticatorData + crypto.hash(q.response.clientDataJson),
                       q.response.signature)
  }

  /** The signed octets print to `p`, and `p` is of this relying party, user, record and counter. */
  predicate SignedDataFits(crypto: Crypto, policy: AuthPolicy, q: FinishRequest, p: Parsed) {
    && InRange(p) && p.attested.None?
    && q.response.authenticatorData == PrintHeader(p) + p.extensionData
    && HashAgrees(crypto, policy, q, p)
    && (policy.counter.rejectCloneRisk ==>
          q.credential.signCount < p.signCount || q.credential.signCount == p.signCount == 0)
    && UserPresent(p.flags)
    && (q.state.uv.UvRequired? ==> UserVerified(p.flags))
    && BackupEligible(p.flags) == q.credential.backupEligible
    && (BackedUp(p.flags) ==> q.credential.backupEligible)
  }

  /** An accepted request names its credential, its owner and its ceremony consistently, and its signature verifies
      under the stored key over the octets that carry the counter and flags. */
  lemma AcceptedIsBound(outside: Outside, crypto: Crypto, policy: AuthPolicy, q: FinishRequest)
    requires FinishFault(outside, crypto, policy, q).None?
    ensures Tied(outside, policy, q)
    ensures EvidenceOf(crypto, policy, q).Ok?
              && EvidenceOf(crypto, policy, q).value.0 == ParsedOr(q.response.authenticatorData)
    ensures Proven(crypto, q) && SignedDataFits(crypto, policy, q, ParsedOr(q.response.authenticatorData))
  {
    hide ValidRecord, ValidAuthentication, BindingsAgree, ClientOutputsOk, ExtensionsPass, Parse, InRange,
      PrintHeader, UserPresent, UserVerified, BackedUp, BackupEligible, HasExtensions;
    var p := EvidenceOf(crypto, policy, q).value.0;
    ParseExactlyPrinted(q.response.authenticatorData, p);
    InRangeWithoutAttested(p);
    StateHasExpiry(outside, q.state);
  }

  lemma InRangeWithoutAttested(p: Parsed)
    requires InRange(p)
    ensures p.attested.Some? == HasAttested(p.flags)
  {}

  lemma StateHasExpiry(outside: Outside, s: AuthenticationState)
    requires ValidAuthentication(outside, s)
    ensures s.expiresAt != 0
  {}

  /** Every update returned by a successful verification applies to the verified record without error, yields exactly
      the returned record, and moves only what an assertion may move. */
  lemma ReturnedUpdateApplies(outside: Outside, crypto: Crypto, policy: AuthPolicy, q: FinishRequest,
      result: AuthenticationResult)
    requires FinishFault(outside, crypto, policy, q).None?
    requires EvidenceOf(crypto, policy, q).Ok? && Returns(crypto, policy, q, result)
    ensures ApplyTo(result.update, q.credential) == Ok(result.credential)
    ensures ValidRecord(result.credential)
    ensures Advances(q.credential, result.credential, policy.counter.updateOnCloneRisk)
    ensures !q.credential.uvInitialized && result.credential.uvInitialized ==> q.uvAuthorized && result.userVerified
  {
    hide FinishFault, EvidenceOf, ValidRecord, ApplyTo, UpdateFor, Advances, NextRecord;
    AcceptedIsBound(outside, crypto, policy, q);
    var p := EvidenceOf(crypto, policy, q).value.0;
    var a := AssertionOf(policy, q, p);
    UpdateAppliesToItsSnapshot(q.credential, a);
    AssertionAdvances(q.credential, a);
  }

  // ----- Through a relying party -----

  /** How a relying party treats extension outputs at authentication. */
  datatype OutputPolicy = OutputPolicy(rejectUnrequested: bool, rejectUnknown: bool, appId: string)

  function PolicyOf(p: Party, o: OutputPolicy): AuthPolicy {
    AuthPolicy(p.config.dependencies.signatureVerifier, Some(p.config.accepts), p.config.dependencies.extensionDecoder,
               p.config.registry, o.rejectUnrequested, o.rejectUnknown, o.appId, p.config.counter)
  }

  /** The relying party's finish: configuration agreement, then the record and its algorithm, then verification. */
  ghost function PartyFault(outside: Outside, crypto: Crypto, p: Party, o: OutputPolicy,
      q: FinishRequest): Option<AuthError> {
    if !AuthenticationAgrees(p, q.state) then Some(StateMismatch)
    else if !ValidRecord(q.credential) then Some(InvalidCredential)
    else if q.credential.key.algorithm !in p.algorithms then Some(UnsupportedAlgorithm)
    else FinishFault(outside, crypto, PolicyOf(p, o), q)
  }

  method PartyFinishAuthentication(outside: Outside, crypto: Crypto, p: Party, o: OutputPolicy, q: FinishRequest)
    returns (r: Result<AuthenticationResult, AuthError>)
    ensures PartyFault(outside, crypto, p, o, q).Some? ==> r == Err(PartyFault(outside, crypto, p, o, q).value)
    ensures PartyFault(outside, crypto, p, o, q).None? ==> r.Ok?
    ensures r.Ok? ==> Returns(crypto, PolicyOf(p, o), q, r.value)
  {
    hide FinishFault, EvidenceOf, ValidRecord, AuthenticationAgrees, Complete;
    if !AuthenticationAgrees(p, q.state) {
      return Err(StateMismatch);
    }
    if !ValidRecord(q.credential) {
      return Err(InvalidCredential);
    }
    if q.credential.key.algorithm !in p.algorithms {
      return Err(UnsupportedAlgorithm);
    }
    r := FinishAuthentication(outside, crypto, PolicyOf(p, o), q);
  }

  /** Faults of the ceremony state itself, as opposed to the response and its evidence. */
  predicate StateFault(e: AuthError) { e.StateMismatch? || e.InvalidCeremony? || e.BindingsDiffer? || e.Expired? }

  lemma OtherFaults(crypto: Crypto, policy: AuthPolicy, q: FinishRequest)
    ensures EvidenceOf(crypto, policy, q).Err? ==> !StateFault(EvidenceOf(crypto, policy, q).error)
    ensures DependencyFault(policy, q.credential).Some? ==> !StateFault(DependencyFault(policy, q.credential).value)
    ensures CredentialFault(q.state, q.response, q.credential).Some? ==>
              !StateFault(CredentialFault(q.state, q.response, q.credential).value)
    ensures UserFault(q.state, q.response, q.credential).Some? ==>
              !StateFault(UserFault(q.state, q.response, q.credential).value)
  {
    hide Parse, ExpectedHash, ValidRecord;
  }

  /** A state that the party itself started is never rejected for its configuration, its stored form or its bindings;
      the only fault of the state that remains is its expiry. */
  lemma OwnStateIsNotRejected(outside: Outside, crypto: Crypto, p: Party, o: OutputPolicy, q: FinishRequest)
    requires AuthenticationAgrees(p, q.state) && ValidAuthentication(outside, q.state)
    requires Freezes(q.state.requested.bindings, p.config.registry, q.state.requested.inputs.Keys)
    ensures PartyFault(outside, crypto, p, o, q).Some? && StateFault(PartyFault(outside, crypto, p, o, q).value) ==>
              PartyFault(outside, crypto, p, o, q) == Some(Expired) && q.now >= q.state.expiresAt
  {
    hide ValidAuthentication, ValidRecord, Freezes, ClientOutputsOk, ExtensionsPass, EvidenceOf, DependencyFault,
      CredentialFault, UserFault;
    OwnStatesPassBindingCheck(p, q.state.requested);
    OtherFaults(crypto, PolicyOf(p, o), q);
  }

  /** The authenticator data of an accepted request. */
  ghost function VerifiedData(outside: Outside, crypto: Crypto, p: Party, o: OutputPolicy,
      q: FinishRequest): Option<Parsed> {
    if PartyFault(outside, crypto, p, o, q).Some? then None else Some(EvidenceOf(crypto, PolicyOf(p, o), q).value.0)
  }

  lemma EvidenceIsParsed(crypto: Crypto, policy: AuthPolicy, q: FinishRequest)
    requires EvidenceOf(crypto, policy, q).Ok?
    ensures Parse(q.response.authenticatorData) == Ok(EvidenceOf(crypto, policy, q).value.0)
  {
    hide Parse;
  }

  /** What acceptance through a relying party gives a caller that stores credentials. */
  lemma VerifiedDataIsBound(outside: Outside, crypto: Crypto, p: Party, o: OutputPolicy, q: FinishRequest)
    requires VerifiedData(outside, crypto, p, o, q).Some?
    ensures ValidRecord(q.credential) && q.response.rawId == q.credential.id
    ensures Parse(q.response.authenticatorData) == Ok(VerifiedData(outside, crypto, p, o, q).value)
    ensures BackedUp(VerifiedData(outside, crypto, p, o, q).value.flags) ==> q.credential.backupEligible
    ensures q.state.expectedUser == q.credential.user
              || (q.state.expectedUser == [] && q.response.userHandle == q.credential.user)
    ensures q.now < q.state.expiresAt
  {
    hide FinishFault, EvidenceOf, ValidRecord, Parse, AuthenticationAgrees, BackedUp;
    AcceptedIsBound(outside, crypto, PolicyOf(p, o), q);
    EvidenceIsParsed(crypto, PolicyOf(p, o), q);
  }

  // ----- Acceptance is possible -----

  function ZeroHash(): seq<byte> { seq(HASH_LENGTH, i => 0) }

  function ExampleData(): Parsed { Parsed(ZeroHash(), 1, 8, None, []) }

  function ExampleRecord(): CredentialRecord {
    CredentialRecord(PublicKeyType, [1], PublicKey(ES256, [5]), [2], "r", seq(AAGUID_LENGTH, i => 0), 7, [], false,
                     false, false, NoAttachment, NoneType)
  }

  /** A login without extensions for a known user, one second before its ceremony expires. */
  function ExampleRequest(): FinishRequest {
    var policy := OriginPolicy([], [], false, false);
    var state := AuthenticationState([3], "r", policy, UvPreferred, Requested(map[], []), [], [2], 1_000_000_000);
    var data := PrintHeader(ExampleData()) + PrintTail(ExampleData());
    FinishRequest(state, AuthenticationResponse(PublicKeyType, [1], "{}", data, [4], [], NoAttachment, map[]),
        ExampleRecord(), false, 0)
  }

  function ExampleCrypto(): Crypto {
    Crypto(text => ZeroHash(), (text, operation, challenge, policy) => true, (key, signed, signature) => true,
        data => None)
  }

  function ExamplePolicy(): AuthPolicy { PolicyOf(ExampleParty(), OutputPolicy(true, true, "")) }

  lemma ExampleCeremony()
    ensures CeremonyFault(ExampleOutside(), ExamplePolicy(), ExampleRequest()).None?
  {
    hide PrintHeader, PrintTail;
    var q := ExampleRequest();
    assert |PrintHeader(ExampleData())| > 0 by { HeaderNotEmpty(ExampleData()); }
    assert ValidAuthentication(ExampleOutside(), q.state);
  }

  lemma HeaderNotEmpty(p: Parsed)
    ensures |PrintHeader(p)| > 0
  {}

  lemma ExampleEvidence()
    ensures EvidenceOf(ExampleCrypto(), ExamplePolicy(), ExampleRequest()) == Ok((ExampleData(), map[]))
  {
    hide PrintHeader, PrintTail, Parse;
    ParseExactlyPrinted(ExampleRequest().response.authenticatorData, ExampleData());
  }

  /** Some party accepts some request, even under the strictest policy. */
  lemma SomeRequestIsAccepted()
    ensures PartyFault(ExampleOutside(), ExampleCrypto(), ExampleParty(), OutputPolicy(true, true, ""),
                       ExampleRequest()).None?
    ensures FinishFault(ExampleOutside(), ExampleCrypto(), ExamplePolicy(), ExampleRequest()).None?
  {
    hide CeremonyFault, EvidenceOf, PrintHeader, PrintTail;
    ExampleCeremony();
    ExampleEvidence();
    var q := ExampleRequest();
    assert WorkIds(WorkFor(ExamplePolicy(), q.state, q.response, q.credential, map[])) == {};
  }
}
