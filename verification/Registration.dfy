// Verification of a registration response, and the credential record it yields.
module Registration {
  import opened Base
  import opened Values
  import opened AuthenticatorData
  import opened InputHandlers
  import opened Extensions
  import opened ExtensionResults
  import opened Ceremonies
  import opened Credentials
  import opened RelyingParty

  datatype RegistrationError =
    | InvalidDependencies | Expired | InvalidCeremony | BindingsDiffer | MalformedResponse | ExtensionPolicyFailure
    | ClientDataRejected | DataRejected(error: DataError) | UnsupportedAlgorithm | AttestationRejected | StateMismatch

  datatype RegistrationResponse = RegistrationResponse(
    kind: CredentialType, rawId: seq<byte>, clientDataJson: string, authenticatorData: seq<byte>,
    attestationObject: seq<byte>, algorithm: int, transports: seq<string>, attachment: Attachment,
    client: map<string, Value>)

  datatype AttestationObject = AttestationObject(raw: seq<byte>, format: string, authenticatorData: seq<byte>)

  /** Hashing, CBOR, client data and attestation statements, as given functions. `attest` stands for the format
      verifier together with the trust policy: None where either refuses. */
  datatype Verifiers = Verifiers(
    hash: string -> seq<byte>,
    clientDataFits: (string, Operation, seq<byte>, OriginPolicy) -> bool,
    attestationObject: seq<byte> -> Option<AttestationObject>,
    decoders: Decoders,
    extensionMap: seq<byte> -> map<string, Value>,
    attest: (AttestationObject, PublicKey, seq<byte>, Conveyance) -> Option<AttestationType>)

  datatype RegistrationPolicy = RegistrationPolicy(
    hasDecoders: bool, registry: Option<Registry>, rejectUnrequested: bool, rejectUnknown: bool)

  datatype RegistrationFinish = RegistrationFinish(state: RegistrationState, response: RegistrationResponse, now: Time)

  predicate ShapeOk(r: RegistrationResponse) {
    r.kind.PublicKeyType? && r.rawId != [] && r.clientDataJson != "" && r.attestationObject != []
  }

  ghost function CeremonyFault(outside: Outside, policy: RegistrationPolicy,
      q: RegistrationFinish): Option<RegistrationError> {
    if !policy.hasDecoders then Some(InvalidDependencies)
    else if q.state.expiresAt != 0 && q.now >= q.state.expiresAt then Some(Expired)
    else if !ValidRegistration(outside, q.state) then Some(InvalidCeremony)
    else if !BindingsAgree(q.state.requested, policy.registry) then Some(BindingsDiffer)
    else if !ShapeOk(q.response) then Some(MalformedResponse)
    else if !ClientOutputsOk(q.response.client) then Some(ExtensionPolicyFailure)
    else None
  }

  function DemandsOf(v: Verifiers, s: RegistrationState): Demands {
    Demands(v.hash(s.rpId), s.conditional, s.uv.UvRequired?)
  }

  /** The decoded attestation object that the response carries, consistent with its other members. */
  function DecodedObject(v: Verifiers, q: RegistrationFinish): Result<AttestationObject, RegistrationError> {
    if !v.clientDataFits(q.response.clientDataJson, Registration, q.state.challenge, q.state.policy)
        then Err(ClientDataRejected)
    else
      match v.attestationObject(q.response.attestationObject)
      case None => Err(MalformedResponse)
      case Some(o) =>
        if o.raw != q.response.attestationObject then Err(MalformedResponse)
        else if q.response.authenticatorData != [] && q.response.authenticatorData != o.authenticatorData
            then Err(MalformedResponse)
        else Ok(o)
  }

  /** The registered fields, from authenticator data that the attestation statement covers. */
  function RegisteredFields(v: Verifiers, q: RegistrationFinish, o: AttestationObject)
    : Result<Registered, RegistrationError>
  {
    match VerifyRegistrationData(DemandsOf(v, q.state), o.authenticatorData)
    case Err(e) => Err(DataRejected(e))
    case Ok(p) =>
      if p.attested.None? then Err(MalformedResponse)
      else if p.attested.value.id != q.response.rawId then Err(MalformedResponse)
      else
        match ReadRegistration(DemandsOf(v, q.state), v.decoders, o.authenticatorData)
        case Err(e) => Err(DataRejected(e))
        case Ok(f) =>
          if f.key.algorithm !in q.state.algorithms then Err(UnsupportedAlgorithm)
          else if q.response.algorithm != 0 && q.response.algorithm != f.key.algorithm then Err(MalformedResponse)
          else Ok(f)
  }

  function AttestationOf(v: Verifiers, q: RegistrationFinish, o: AttestationObject,
      f: Registered): Result<AttestationType, RegistrationError> {
    if !ValidIdentifier(o.format) then Err(AttestationRejected)
    else
      match v.attest(o, f.key, v.hash(q.response.clientDataJson), q.state.conveyance)
      case None => Err(AttestationRejected)
      case Some(t) => if t.AttestationOther? then Err(AttestationRejected) else Ok(t)
  }

  function WorkFor(v: Verifiers, policy: RegistrationPolicy, q: RegistrationFinish, f: Registered): Work {
    Work(Registration, [], policy.registry, policy.rejectUnrequested, policy.rejectUnknown, KeepInput(),
         q.state.requested.inputs, q.response.client, if f.extensions == [] then map[]
             else v.extensionMap(f.extensions))
  }

  ghost predicate ExtensionsPass(v: Verifiers, policy: RegistrationPolicy, q: RegistrationFinish, f: Registered) {
    var w := WorkFor(v, policy, q, f);
    RemoteBound(q.state.requested, q.response.clientDataJson)
    && WithinWork(w) && (forall id :: id in WorkIds(w) ==> ResultOf(w, id).Some?)
  }

  function RecordFor(q: RegistrationFinish, f: Registered, t: AttestationType): CredentialRecord {
    CredentialRecord(q.response.kind, f.id, f.key, q.state.user, q.state.rpId, f.aaguid, f.signCount,
        q.response.transports,
                     BackupEligible(f.flags), BackedUp(f.flags), UserVerified(f.flags),
                     NormalizedAttachment(q.response.attachment), t)
  }

  /** The record a finish request yields, or its error. */
  ghost function FinishedRegistration(outside: Outside, v: Verifiers, policy: RegistrationPolicy, q: RegistrationFinish)
    : Result<CredentialRecord, RegistrationError>
  {
    if CeremonyFault(outside, policy, q).Some? then Err(CeremonyFault(outside, policy, q).value)
    else
      match DecodedObject(v, q)
      case Err(e) => Err(e)
      case Ok(o) =>
        match RegisteredFields(v, q, o)
        case Err(e) => Err(e)
        case Ok(f) =>
          match AttestationOf(v, q, o, f)
          case Err(e) => Err(e)
          case Ok(t) => if !ExtensionsPass(v, policy, q, f) then Err(ExtensionPolicyFailure) else Ok(RecordFor(q, f, t))
  }

  method CeremonyChecks(outside: Outside, policy: RegistrationPolicy,
      q: RegistrationFinish) returns (fault: Option<RegistrationError>)
    ensures fault == CeremonyFault(outside, policy, q)
  {
    hide ValidRegistration, ClientOutputsOk, RecordedRevision, CurrentRevision;
    if !policy.hasDecoders {
      return Some(InvalidDependencies);
    }
    if q.state.expiresAt != 0 && q.now >= q.state.expiresAt {
      return Some(Expired);
    }
    var valid := ValidateRegistration(outside, q.state);
    if !valid {
      return Some(InvalidCeremony);
    }
    var agree := ValidateFinishBindings(q.state.requested.inputs, q.state.requested.bindings, policy.registry);
    if !agree {
      return Some(BindingsDiffer);
    }
    if !ShapeOk(q.response) {
      return Some(MalformedResponse);
    }
    return if ClientOutputsOk(q.response.client) then None else Some(ExtensionPolicyFailure);
  }

  method FinishRegistration(outside: Outside, v: Verifiers, policy: RegistrationPolicy, q: RegistrationFinish)
    returns (r: Result<CredentialRecord, RegistrationError>)
    ensures r == FinishedRegistration(outside, v, policy, q)
  {
    hide CeremonyFault, DecodedObject, RegisteredFields, AttestationOf, RecordFor, WithinWork, ResultOf, WorkIds,
      WorkFor, Complete;
    var fault := CeremonyChecks(outside, policy, q);
    if fault.Some? {
      return Err(fault.value);
    }
    var decoded := DecodedObject(v, q);
    if decoded.Err? {
      return Err(decoded.error);
    }
    var fields := RegisteredFields(v, q, decoded.value);
    if fields.Err? {
      return Err(fields.error);
    }
    var attestation := AttestationOf(v, q, decoded.value, fields.value);
    if attestation.Err? {
      return Err(attestation.error);
    }
    if !RemoteBound(q.state.requested, q.response.clientDataJson) {
      return Err(ExtensionPolicyFailure);
    }
    var results := VerifyExtensions(WorkFor(v, policy, q, fields.value));
    if results.Err? {
      return Err(ExtensionPolicyFailure);
    }
    return Ok(RecordFor(q, fields.value, attestation.value));
  }

  /** Every record that a registration yields is valid, belongs to the ceremony's user and relying party, and its id,
      key, counter and flags are the ones at their places in the attested authenticator data. */
  lemma RegisteredRecordIsValid(outside: Outside, v: Verifiers, policy: RegistrationPolicy, q: RegistrationFinish)
    returns (o: AttestationObject, f: Registered)
    requires FinishedRegistration(outside, v, policy, q).Ok?
    ensures var c := FinishedRegistration(outside, v, policy, q).value;
            && ValidRecord(c)
            && c.user == q.state.user && c.rpId == q.state.rpId && c.id == q.response.rawId
            && c.key.algorithm in q.state.algorithms
            && v.attestationObject(q.response.attestationObject) == Some(o)
            && o.authenticatorData == PrintRegistration(f)
            && FieldsInRange(f) && MeetsDemands(DemandsOf(v, q.state), f)
            && c.id == f.id && c.key == f.key && c.signCount == f.signCount && c.aaguid == f.aaguid
            && c.backupEligible == BackupEligible(f.flags) && c.backedUp == BackedUp(f.flags)
            && c.uvInitialized == UserVerified(f.flags)
            && (q.state.uv.UvRequired? ==> c.uvInitialized)
            && c.kind == q.response.kind && c.transports == q.response.transports
            && c.attachment == (if q.response.attachment in {Platform, CrossPlatform} then q.response.attachment
                                else NoAttachment)
            && v.clientDataFits(q.response.clientDataJson, Registration, q.state.challenge, q.state.policy)
            && ValidIdentifier(o.format)
            && v.attest(o, c.key, v.hash(q.response.clientDataJson), q.state.conveyance) == Some(c.attestation)
  {
    hide BindingsAgree, ClientOutputsOk, ExtensionsPass, PrintRegistration, BackupEligible, BackedUp, UserVerified,
      UserPresent, HasExtensions, HasAttested, Reserved, ValidKey, Decodes, Parse, DecodeKeyAndExtensions,
      ValidRequested;
    o := DecodedObject(v, q).value;
    f := RegisteredFields(v, q, o).value;
    ReadRegistrationExactly(DemandsOf(v, q.state), v.decoders, o.authenticatorData, f);
  }

  // ----- Through a relying party -----

  /** How a relying party treats extension outputs at registration. */
  datatype OutputPolicy = OutputPolicy(rejectUnrequested: bool, rejectUnknown: bool)

  function PolicyOf(p: Party, o: OutputPolicy): RegistrationPolicy {
    var d := p.config.dependencies;
    RegistrationPolicy(d.attestationDecoder && d.keyDecoder && d.attestationRegistry,
                       p.config.registry, o.rejectUnrequested, o.rejectUnknown)
  }

  /** The relying party's finish: configuration agreement, then verification. */
  ghost function PartyRegistration(outside: Outside, v: Verifiers, p: Party, o: OutputPolicy, q: RegistrationFinish)
    : Result<CredentialRecord, RegistrationError>
  {
    if !RegistrationAgrees(p, q.state) then Err(StateMismatch)
    else FinishedRegistration(outside, v, PolicyOf(p, o), q)
  }

  lemma PartyRecordIsValid(outside: Outside, v: Verifiers, p: Party, o: OutputPolicy, q: RegistrationFinish)
    requires PartyRegistration(outside, v, p, o, q).Ok?
    ensures ValidRecord(PartyRegistration(outside, v, p, o, q).value)
    ensures PartyRegistration(outside, v, p, o, q).value.user == q.state.user
  {
    hide FinishedRegistration, ValidRecord, RegistrationAgrees;
    var decoded, f := RegisteredRecordIsValid(outside, v, PolicyOf(p, o), q);
  }

  /** Faults of the party or the ceremony state, as opposed to the response and its evidence. */
  predicate StateFault(e: RegistrationError) {
    e.InvalidDependencies? || e.StateMismatch? || e.InvalidCeremony? || e.BindingsDiffer? || e.Expired?
  }

  lemma OtherFaults(v: Verifiers, q: RegistrationFinish)
    ensures DecodedObject(v, q).Err? ==> !StateFault(DecodedObject(v, q).error)
    ensures forall o :: RegisteredFields(v, q, o).Err? ==> !StateFault(RegisteredFields(v, q, o).error)
    ensures forall o, f :: AttestationOf(v, q, o, f).Err? ==> !StateFault(AttestationOf(v, q, o, f).error)
  {
    hide ReadRegistration, VerifyRegistrationData, ValidIdentifier;
  }

  /** A registration state that the party itself started is never rejected for the party's configuration, the state's
      stored form or its bindings; the only fault of the state that remains is its expiry. */
  lemma OwnStateIsNotRejected(outside: Outside, v: Verifiers, p: Party, o: OutputPolicy, q: RegistrationFinish)
    requires Ready(outside, p) && RegistrationAgrees(p, q.state) && ValidRegistration(outside, q.state)
    requires Freezes(q.state.requested.bindings, p.config.registry, q.state.requested.inputs.Keys)
    ensures var r := PartyRegistration(outside, v, p, o, q);
            r.Err? && StateFault(r.error) ==> r == Err(Expired) && q.now >= q.state.expiresAt
  {
    hide ValidRegistration, RegistrationAgrees, Freezes, ClientOutputsOk, ExtensionsPass, DecodedObject,
      RegisteredFields, AttestationOf, RecordFor, FilteredParameters, ValidRegistry, ValidScope;
    OwnStatesPassBindingCheck(p, q.state.requested);
    OtherFaults(v, q);
  }

  // ----- Acceptance is possible -----

  function Zeros(n: nat): seq<byte> { seq(n, i => 0) }

  function ExampleKey(): PublicKey { PublicKey(ES256, [5]) }

  /** User present, attested, no extensions. */
  function ExampleFields(): Registered {
    Registered(Zeros(HASH_LENGTH), 0x41, 7, Zeros(AAGUID_LENGTH), [1], ExampleKey(), [])
  }

  function ExampleVerifiers(): Verifiers {
    Verifiers(text => Zeros(HASH_LENGTH), (text, operation, challenge, policy) => true,
              raw => Some(AttestationObject(raw, "none", PrintRegistration(ExampleFields()))),
              Decoders(data => Some(ExampleKey()), false, data => false), data => map[],
              (o, key, hash, conveyance) => Some(NoneType))
  }

  function ExamplePolicy(): RegistrationPolicy {
    PolicyOf(ExampleParty(), OutputPolicy(true, true))
  }

  function ExampleFinish(): RegistrationFinish {
    var state := RegistrationState([3], "r", OriginPolicy([], [], false, false), false, [2], UvPreferred,
        Requested(map[], []),
                                   [ES256], NoConveyance, 1_000_000_000);
    RegistrationFinish(state, RegistrationResponse(PublicKeyType, [1], "{}", [], [4], 0, [], NoAttachment, map[]), 0)
  }

  lemma ExampleIsRead()
    ensures RegisteredFields(ExampleVerifiers(), ExampleFinish(),
              AttestationObject([4], "none", PrintRegistration(ExampleFields())))
         == Ok(ExampleFields())
  {
    hide PrintRegistration, Parse, DecodeKeyAndExtensions;
    var v, q, f := ExampleVerifiers(), ExampleFinish(), ExampleFields();
    assert f.key.raw + f.extensions == [5];
    ReadRegistrationExactly(DemandsOf(v, q.state), v.decoders, PrintRegistration(f), f);
  }

  lemma ExampleCeremony()
    ensures CeremonyFault(ExampleOutside(), ExamplePolicy(), ExampleFinish()).None?
    ensures RegistrationAgrees(ExampleParty(), ExampleFinish().state)
  {}

  /** Some party accepts some registration, which yields the record of its octets. */
  lemma SomeRegistrationIsAccepted()
    ensures PartyRegistration(ExampleOutside(), ExampleVerifiers(), ExampleParty(), OutputPolicy(true, true),
                              ExampleFinish())
         == FinishedRegistration(ExampleOutside(), ExampleVerifiers(), ExamplePolicy(), ExampleFinish())
         == Ok(RecordFor(ExampleFinish(), ExampleFields(), NoneType))
  {
    hide CeremonyFault, RegistrationAgrees, PrintRegistration, RegisteredFields, ResultOf;
    ExampleCeremony();
    var v, policy, q, f := ExampleVerifiers(), ExamplePolicy(), ExampleFinish(), ExampleFields();
    var o := AttestationObject([4], "none", PrintRegistration(f));
    assert DecodedObject(v, q) == Ok(o);
    ExampleIsRead();
    assert WorkIds(WorkFor(v, policy, q, f)) == {};
  }
}
