// The checks of a registration as one ordered table over the raw response and the stored state, with the record that
// they yield when all pass.
module EnrolmentChecks {
  import opened Base
  import opened Values
  import opened Identifiers
  import opened AuthenticatorData
  import opened InputHandlers
  import opened Extensions
  import opened ExtensionResults
  import opened ExtensionFacts
  import opened Ceremonies
  import opened Credentials
  import opened RelyingParty
  import opened Registration

  // ----- What the checks speak about -----

  function ObjectOr(v: Verifiers, q: RegistrationFinish): AttestationObject {
    match v.attestationObject(q.response.attestationObject)
    case Some(o) => o
    case None => AttestationObject([], "", [])
  }

  function DataOr(v: Verifiers, q: RegistrationFinish): Parsed { ParsedOr(ObjectOr(v, q).authenticatorData) }

  function AttestedOr(p: Parsed): Attested { if p.attested.Some? then p.attested.value else Attested([], [], []) }

  function KeyOr(v: Verifiers, tail: seq<byte>): PublicKey {
    match v.decoders.key(tail)
    case Some(key) => key
    case None => PublicKey(0, [])
  }

  /** The octets after the key. */
  function TailOf(v: Verifiers, tail: seq<byte>): seq<byte> {
    var length := |KeyOr(v, tail).raw|;
    if length <= |tail| then tail[length..] else []
  }

  // ----- The table -----

  ghost function CeremonyRows(outside: Outside, policy: RegistrationPolicy,
                              q: RegistrationFinish): seq<Check<RegistrationError>>
  {
    var s, r := q.state, q.response;
    [Check(policy.hasDecoders, InvalidDependencies),
     Check(s.expiresAt == 0 || q.now < s.expiresAt, Expired),
     Check(ValidRegistration(outside, s), InvalidCeremony),
     Check(BoundAsRegistered(s.requested, policy.registry), BindingsDiffer),
     Check(r.kind == PublicKeyType && [] !in [r.rawId, r.attestationObject] && r.clientDataJson != "",
           MalformedResponse),
     Check(|r.client| <= 64 && forall id :: id in r.client ==> ValidIdentifier(id), ExtensionPolicyFailure)]
  }

  function ObjectRows(v: Verifiers, q: RegistrationFinish): seq<Check<RegistrationError>> {
    var s, r, o := q.state, q.response, ObjectOr(v, q);
    [Check(v.clientDataFits(r.clientDataJson, Registration, s.challenge, s.policy), ClientDataRejected),
     Check(v.attestationObject(r.attestationObject).Some?, MalformedResponse),
     Check(o.raw == r.attestationObject, MalformedResponse),
     Check(r.authenticatorData in [[], o.authenticatorData], MalformedResponse)]
  }

  function DataRows(v: Verifiers, q: RegistrationFinish): seq<Check<RegistrationError>> {
    var s, data, p := q.state, ObjectOr(v, q).authenticatorData, DataOr(v, q);
    [Check(Parse(data).Ok?, DataRejected(Malformed)),
     Check(p.rpIdHash == v.hash(s.rpId), DataRejected(RpIdHashMismatch)),
     Check(s.conditional || Bit(p.flags, 0x01), DataRejected(UserPresenceRequired)),
     Check(s.uv == UvRequired ==> Bit(p.flags, 0x04), DataRejected(UserVerificationRequired)),
     Check(Bit(p.flags, 0x10) ==> Bit(p.flags, 0x08), DataRejected(InvalidBackupState)),
     Check(Bit(p.flags, 0x40), DataRejected(NoAttestedData)),
     Check(AttestedOr(p).id == q.response.rawId, MalformedResponse)]
  }

  function KeyRows(v: Verifiers, q: RegistrationFinish): seq<Check<RegistrationError>> {
    var p := DataOr(v, q);
    var tail := AttestedOr(p).keyAndExtensions;
    var key, extensions := KeyOr(v, tail), TailOf(v, tail);
    [Check(v.decoders.key(tail).Some? && ValidKey(key) && key.raw <= tail, DataRejected(Malformed)),
     Check(Bit(p.flags, 0x80) <==> extensions != [], DataRejected(Malformed)),
     Check(extensions != [] ==> v.decoders.hasExtensionDecoder, DataRejected(NoExtensionDecoder)),
     Check(extensions != [] ==> v.decoders.readable(extensions), DataRejected(Malformed)),
     Check(key.algorithm in q.state.algorithms, UnsupportedAlgorithm),
     Check(q.response.algorithm in [0, key.algorithm], MalformedResponse)]
  }

  /** What the format's verifier and the trust policy say about the statement. */
  function StatementVerdict(v: Verifiers, q: RegistrationFinish): Option<AttestationType> {
    v.attest(ObjectOr(v, q), KeyOr(v, AttestedOr(DataOr(v, q)).keyAndExtensions), v.hash(q.response.clientDataJson),
             q.state.conveyance)
  }

  function StatementRows(v: Verifiers, q: RegistrationFinish): seq<Check<RegistrationError>> {
    [Check(ValidIdentifier(ObjectOr(v, q).format), AttestationRejected),
     Check(StatementVerdict(v, q).Some?, AttestationRejected),
     Check(StatementVerdict(v, q).Some? ==>
             StatementVerdict(v, q).value
               in {NoneType, SelfType, BasicType, AttCaType, AnonymizationCaType, UncertainType}, AttestationRejected)]
  }

  ghost function ExtensionRows(v: Verifiers, policy: RegistrationPolicy,
                               q: RegistrationFinish): seq<Check<RegistrationError>>
  {
    var s, r, extensions := q.state, q.response, TailOf(v, AttestedOr(DataOr(v, q)).keyAndExtensions);
    var w := Work(Registration, [], policy.registry, policy.rejectUnrequested, policy.rejectUnknown, KeepInput(),
                  s.requested.inputs, r.client, if extensions == [] then map[] else v.extensionMap(extensions));
    [Check(RemoteAgreement(s.requested, r.clientDataJson), ExtensionPolicyFailure),
     Check(EveryIdHasResult(w), ExtensionPolicyFailure)]
  }

  ghost function EnrolmentTable(outside: Outside, v: Verifiers, policy: RegistrationPolicy,
                                q: RegistrationFinish): seq<Check<RegistrationError>>
  {
    CeremonyRows(outside, policy, q) + ObjectRows(v, q) + DataRows(v, q) + KeyRows(v, q) + StatementRows(v, q)
    + ExtensionRows(v, policy, q)
  }

  /** The record, field by field. */
  function YieldedRecord(v: Verifiers, q: RegistrationFinish): CredentialRecord {
    var p := DataOr(v, q);
    var a := AttestedOr(p);
    CredentialRecord(
      PublicKeyType, q.response.rawId, KeyOr(v, a.keyAndExtensions), q.state.user, q.state.rpId, a.aaguid,
      p.signCount, q.response.transports, Bit(p.flags, 0x08), Bit(p.flags, 0x10), Bit(p.flags, 0x04),
      if q.response.attachment in {Platform, CrossPlatform} then q.response.attachment else NoAttachment,
      if StatementVerdict(v, q).Some? then StatementVerdict(v, q).value else NoneType)
  }

  // ----- Finish follows the table -----

  lemma CeremonyByRows(outside: Outside, policy: RegistrationPolicy, q: RegistrationFinish)
    ensures CeremonyFault(outside, policy, q) == FirstFailure(CeremonyRows(outside, policy, q), 0)
  {
    hide FirstFailure, ValidRegistration, BindingsAgree, BoundAsRegistered, ValidIdentifier;
    var t := CeremonyRows(outside, policy, q);
    NextCheck(t, 0);
    NextCheck(t, 1);
    NextCheck(t, 2);
    NextCheck(t, 3);
    NextCheck(t, 4);
    NextCheck(t, 5);
    NextCheck(t, 6);
    if ValidRegistration(outside, q.state) {
      StateIsSortedToo(outside, q.state);
      BindingsByTable(q.state.requested, policy.registry);
    }
  }

  lemma StateIsSortedToo(outside: Outside, s: RegistrationState)
    requires ValidRegistration(outside, s)
    ensures SortedBindings(s.requested.bindings)
  {
    hide ValidScope, Before, BuiltInRevision;
  }

  lemma ObjectByRows(v: Verifiers, q: RegistrationFinish)
    ensures var fault := FirstFailure(ObjectRows(v, q), 0);
            DecodedObject(v, q) == if fault.Some? then Err(fault.value) else Ok(ObjectOr(v, q))
  {
    hide FirstFailure;
    var t := ObjectRows(v, q);
    NextCheck(t, 0);
    NextCheck(t, 1);
    NextCheck(t, 2);
    NextCheck(t, 3);
    NextCheck(t, 4);
  }

  lemma DataByRows(v: Verifiers, q: RegistrationFinish)
    ensures var fault, o := FirstFailure(DataRows(v, q), 0), ObjectOr(v, q);
            var data := VerifyRegistrationData(DemandsOf(v, q.state), o.authenticatorData);
            && (fault.None? <==> data.Ok? && data.value.attested.Some?
                                 && data.value.attested.value.id == q.response.rawId)
            && (fault.None? ==> data == Ok(DataOr(v, q)))
            && (fault.Some? ==> RegisteredFields(v, q, o) == Err(fault.value))
  {
    hide FirstFailure, ReadRegistration;
    var t, raw := DataRows(v, q), ObjectOr(v, q).authenticatorData;
    NextCheck(t, 0);
    NextCheck(t, 1);
    NextCheck(t, 2);
    NextCheck(t, 3);
    NextCheck(t, 4);
    NextCheck(t, 5);
    NextCheck(t, 6);
    NextCheck(t, 7);
    ParseFaults(raw);
    hide Parse;
  }

  lemma ParseFaults(raw: seq<byte>)
    ensures Parse(raw).Err? ==> Parse(raw) == Err(Malformed)
    ensures Parse(raw).Ok? ==> (Parse(raw).value.attested.Some? <==> Bit(Parse(raw).value.flags, 0x40))
  {}

  /** The fields that the data carries. */
  function FieldsOf(v: Verifiers, q: RegistrationFinish): Registered {
    var p := DataOr(v, q);
    var a := AttestedOr(p);
    Registered(p.rpIdHash, p.flags, p.signCount, a.aaguid, a.id, KeyOr(v, a.keyAndExtensions),
               TailOf(v, a.keyAndExtensions))
  }

  lemma SplitByRows(v: Verifiers, flags: byte, tail: seq<byte>)
    ensures DecodeKeyAndExtensions(v.decoders, flags, tail) ==
              var key, extensions := KeyOr(v, tail), TailOf(v, tail);
              if !(v.decoders.key(tail).Some? && ValidKey(key) && key.raw <= tail) then Err(Malformed)
              else if !(Bit(flags, 0x80) <==> extensions != []) then Err(Malformed)
              else if extensions != [] && !v.decoders.hasExtensionDecoder then Err(NoExtensionDecoder)
              else if extensions != [] && !v.decoders.readable(extensions) then Err(Malformed)
              else Ok(KeyAndExtensions(key, extensions))
  {}

  lemma KeyByRows(v: Verifiers, q: RegistrationFinish)
    requires FirstFailure(DataRows(v, q), 0).None?
    ensures var fault := FirstFailure(KeyRows(v, q), 0);
            RegisteredFields(v, q, ObjectOr(v, q)) == if fault.Some? then Err(fault.value) else Ok(FieldsOf(v, q))
  {
    hide FirstFailure, VerifyRegistrationData, DecodeKeyAndExtensions, ValidKey, ParsedOr, KeyOr, TailOf;
    var t := KeyRows(v, q);
    NextCheck(t, 0);
    NextCheck(t, 1);
    NextCheck(t, 2);
    NextCheck(t, 3);
    NextCheck(t, 4);
    NextCheck(t, 5);
    NextCheck(t, 6);
    DataByRows(v, q);
    SplitByRows(v, DataOr(v, q).flags, AttestedOr(DataOr(v, q)).keyAndExtensions);
  }

  lemma StatementByRows(v: Verifiers, q: RegistrationFinish)
    ensures FirstFailure(StatementRows(v, q), 0).None? ==> StatementVerdict(v, q).Some?
    ensures var fault := FirstFailure(StatementRows(v, q), 0);
            AttestationOf(v, q, ObjectOr(v, q), FieldsOf(v, q))
              == if fault.Some? then Err(fault.value) else Ok(StatementVerdict(v, q).value)
  {
    hide FirstFailure, ValidIdentifier, DataOr, ObjectOr, KeyOr, TailOf;
    var t := StatementRows(v, q);
    NextCheck(t, 0);
    NextCheck(t, 1);
    NextCheck(t, 2);
    NextCheck(t, 3);
  }

  lemma ExtensionsByRows(v: Verifiers, policy: RegistrationPolicy, q: RegistrationFinish)
    ensures ExtensionsPass(v, policy, q, FieldsOf(v, q)) <==> FirstFailure(ExtensionRows(v, policy, q), 0).None?
    ensures FirstFailure(ExtensionRows(v, policy, q), 0) in {None, Some(ExtensionPolicyFailure)}
  {
    hide FirstFailure, RemoteBound, RemoteAgreement, ResultOf, EveryIdHasResult, WithinWork, DataOr, KeyOr, TailOf;
    var t := ExtensionRows(v, policy, q);
    RemoteByTable(q.state.requested, q.response.clientDataJson);
    WorkByTable(WorkFor(v, policy, q, FieldsOf(v, q)));
    NextCheck(t, 0);
    NextCheck(t, 1);
    NextCheck(t, 2);
  }

  lemma RecordByRows(v: Verifiers, q: RegistrationFinish)
    requires q.response.kind == PublicKeyType && AttestedOr(DataOr(v, q)).id == q.response.rawId
    requires StatementVerdict(v, q).Some?
    ensures RecordFor(q, FieldsOf(v, q), StatementVerdict(v, q).value) == YieldedRecord(v, q)
  {
    hide DataOr, KeyOr, TailOf, StatementVerdict;
  }

  /** The six groups, one after the other. */
  lemma FirstOfSix<E>(a: seq<Check<E>>, b: seq<Check<E>>, c: seq<Check<E>>, d: seq<Check<E>>, e: seq<Check<E>>,
                      f: seq<Check<E>>)
    ensures FirstFailure(a + b + c + d + e + f, 0) ==
              if FirstFailure(a, 0).Some? then FirstFailure(a, 0)
              else if FirstFailure(b, 0).Some? then FirstFailure(b, 0)
              else if FirstFailure(c, 0).Some? then FirstFailure(c, 0)
              else if FirstFailure(d, 0).Some? then FirstFailure(d, 0)
              else if FirstFailure(e, 0).Some? then FirstFailure(e, 0) else FirstFailure(f, 0)
  {
    hide FirstFailure;
    FirstOfBoth(a + b + c + d + e, f, 0);
    FirstOfBoth(a + b + c + d, e, 0);
    FirstOfBoth(a + b + c, d, 0);
    FirstOfBoth(a + b, c, 0);
    FirstOfBoth(a, b, 0);
  }

  /** The row that ties the record's id to the response, and the one that demands a statement verdict. */
  lemma PassedRows(v: Verifiers, q: RegistrationFinish)
    ensures FirstFailure(DataRows(v, q), 0).None? ==> AttestedOr(DataOr(v, q)).id == q.response.rawId
    ensures FirstFailure(StatementRows(v, q), 0).None? ==> StatementVerdict(v, q).Some?
  {
    hide FirstFailure, DataOr, StatementVerdict, Bit;
    NoFailure(DataRows(v, q), 0);
    NoFailure(StatementRows(v, q), 0);
    assert DataRows(v, q)[6].passes <==> AttestedOr(DataOr(v, q)).id == q.response.rawId;
    assert StatementRows(v, q)[1].passes <==> StatementVerdict(v, q).Some?;
  }

  lemma PassedShape(outside: Outside, policy: RegistrationPolicy, q: RegistrationFinish)
    requires FirstFailure(CeremonyRows(outside, policy, q), 0).None?
    ensures q.response.kind == PublicKeyType
  {
    hide FirstFailure, ValidRegistration, BoundAsRegistered;
    NoFailure(CeremonyRows(outside, policy, q), 0);
    assert CeremonyRows(outside, policy, q)[4].passes;
  }

  /** Finish reports the first check of the table that fails, with its error; when none does, it yields the record
      whose every field is read off the response, the attested octets and the statement's verdict. */
  lemma EnrolmentByTable(outside: Outside, v: Verifiers, policy: RegistrationPolicy, q: RegistrationFinish)
    ensures var fault := FirstFailure(EnrolmentTable(outside, v, policy, q), 0);
            FinishedRegistration(outside, v, policy, q)
              == if fault.Some? then Err(fault.value) else Ok(YieldedRecord(v, q))
  {
    hide FirstFailure, CeremonyRows, ObjectRows, DataRows, KeyRows, StatementRows, ExtensionRows, CeremonyFault,
      DecodedObject, RegisteredFields, AttestationOf, ExtensionsPass, ObjectOr, FieldsOf, StatementVerdict, RecordFor,
      YieldedRecord, DataOr;
    FirstOfSix(CeremonyRows(outside, policy, q), ObjectRows(v, q), DataRows(v, q), KeyRows(v, q), StatementRows(v, q),
               ExtensionRows(v, policy, q));
    CeremonyByRows(outside, policy, q);
    ObjectByRows(v, q);
    DataByRows(v, q);
    StatementByRows(v, q);
    ExtensionsByRows(v, policy, q);
    PassedRows(v, q);
    if FirstFailure(DataRows(v, q), 0).None? {
      KeyByRows(v, q);
      if FirstFailure(CeremonyRows(outside, policy, q), 0).None? && FirstFailure(StatementRows(v, q), 0).None? {
        PassedShape(outside, policy, q);
        RecordByRows(v, q);
      }
    }
  }

  /** No record is yielded when the statement is refused, by its verifier or by the trust policy. */
  lemma RefusedStatementYieldsNothing(outside: Outside, v: Verifiers, policy: RegistrationPolicy, q: RegistrationFinish)
    requires StatementVerdict(v, q).None?
    ensures FinishedRegistration(outside, v, policy, q).Err?
  {
    hide FirstFailure, CeremonyRows, ObjectRows, DataRows, KeyRows, StatementRows, ExtensionRows, YieldedRecord,
      FinishedRegistration, StatementVerdict;
    EnrolmentByTable(outside, v, policy, q);
    PassedRows(v, q);
    FirstOfSix(CeremonyRows(outside, policy, q), ObjectRows(v, q), DataRows(v, q), KeyRows(v, q), StatementRows(v, q),
               ExtensionRows(v, policy, q));
  }

  // ----- Through a relying party -----

  /** What a party compares before it verifies: scope, origins, user verification, algorithms and conveyance. */
  function PartyRows(p: Party, s: RegistrationState): seq<Check<RegistrationError>> {
    var mine, theirs := p.config.policy, s.policy;
    [Check(&& s.rpId == p.config.rpId
           && theirs.allowedOrigins == mine.allowedOrigins && theirs.allowedTopOrigins == mine.allowedTopOrigins
           && theirs.allowRelatedOrigins == mine.allowRelatedOrigins
           && theirs.allowCrossOriginWithoutTopOrigin == mine.allowCrossOriginWithoutTopOrigin
           && s.uv == (match p.config.selection case Some(Selection(_, uv)) => if uv == UvUnset then UvPreferred else uv
                                                case None => UvPreferred)
           && s.algorithms == p.algorithms && s.conveyance == p.config.conveyance, StateMismatch)]
  }

  function PartyPolicy(p: Party, o: OutputPolicy): RegistrationPolicy {
    var d := p.config.dependencies;
    RegistrationPolicy(d.attestationDecoder && d.keyDecoder && d.attestationRegistry, p.config.registry,
                       o.rejectUnrequested, o.rejectUnknown)
  }

  /** A party reports the first failure of its own comparison, then of the table. */
  lemma PartyEnrolmentByTable(outside: Outside, v: Verifiers, p: Party, o: OutputPolicy, q: RegistrationFinish)
    ensures var fault := FirstFailure(PartyRows(p, q.state) + EnrolmentTable(outside, v, PartyPolicy(p, o), q), 0);
            PartyRegistration(outside, v, p, o, q) == if fault.Some? then Err(fault.value) else Ok(YieldedRecord(v, q))
  {
    hide FirstFailure, EnrolmentTable, FinishedRegistration, YieldedRecord;
    var a, b := PartyRows(p, q.state), EnrolmentTable(outside, v, PartyPolicy(p, o), q);
    FirstOfBoth(a, b, 0);
    EnrolmentByTable(outside, v, PartyPolicy(p, o), q);
    NextCheck(a, 0);
    NextCheck(a, 1);
  }
}
