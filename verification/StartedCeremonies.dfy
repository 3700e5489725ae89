// Start, storage and finish composed: a state that a relying party issued, marshalled and unmarshalled,
// is decided about as if it had never left memory.
module StartedCeremonies {
  import opened Base
  import opened Values
  import opened StoredInputs
  import opened InputHandlers
  import opened Extensions
  import opened AuthenticatorData
  import opened Ceremonies
  import opened Credentials
  import opened RelyingParty
  import opened Authentication
  import opened Envelopes
  import opened StoredCeremonies
  import opened EncodedValues
  import CloneWalk
  import Registration

  type Validator = (Operation, Value) -> Option<Value>

  /** Whether a text is client data of the right type for an operation. */
  type RemoteCheck = (Operation, string) -> bool

  // ----- The built-in handlers -----

  /** The input must be true. */
  function TrueValidator(allowed: set<Operation>): Validator {
    (operation: Operation, v: Value) => if operation in allowed && v == Bool(true) then Some(v) else None
  }

  /** The input must be a text that is not empty. */
  function TextValidator(allowed: set<Operation>): Validator {
    (operation: Operation, v: Value) => if operation in allowed && v.Text? && v.text != "" then Some(v) else None
  }

  /** The input must be client data of the ceremony's type. */
  function RemoteValidator(remote: RemoteCheck): Validator {
    (operation: Operation, v: Value) => if v.Text? && v.text != "" && remote(operation, v.text) then Some(v) else None
  }

  /** How the handler of a reserved identifier checks its input. */
  function BuiltInValidator(id: string, remote: RemoteCheck): Option<Validator> {
    if id == "appid" then Some(TextValidator({Authentication}))
    else if id == "appidExclude" then Some(TextValidator({Registration}))
    else if id == "credProps" then Some(TrueValidator({Registration}))
    else if id == "uvm" then Some(TrueValidator({Registration, Authentication}))
    else if id == "remoteClientDataJSON" then Some(RemoteValidator(remote))
    else if id == "prf" then Some(PrfValidator())
    else if id == "largeBlob" then Some(LargeBlobValidator())
    else None
  }

  lemma ReservedAreBuiltIn(id: string, remote: RemoteCheck)
    ensures BuiltInRevision(id).Some? <==> BuiltInValidator(id, remote).Some?
  {}

  /** What a handler normalizes to, it normalizes alike after storage. */
  ghost predicate StableResults(handler: Handler) {
    forall operation, v ::
      handler.validate(operation, v).Some? ==> StableAt(handler, handler.validate(operation, v).value)
  }

  /** Reserved identifiers have their built-in handlers, and the application's own handlers are stable. */
  ghost predicate Sanctioned(registry: Option<Registry>, remote: RemoteCheck) {
    forall id :: CurrentRevision(registry, id).Some? ==>
      if BuiltInRevision(id).Some? then Some(registry.value[id].validate) == BuiltInValidator(id, remote)
      else StableResults(registry.value[id])
  }

  /** Flags and texts come back from storage as they are, under every identifier and registry. */
  lemma SimpleInputsSurvive(registry: Option<Registry>, id: string, input: Input)
    requires input.BoolInput? || input.TextInput?
    ensures Survives(registry, id, input)
  {
    hide PrfOf, LargeBlobOf, CurrentRevision;
    assert AfterStorage(InputValue(input)) == InputValue(input);
  }

  /** The input that a reserved identifier's own handler accepts survives storage. */
  lemma BuiltInResultSurvives(registry: Option<Registry>, remote: RemoteCheck, id: string, operation: Operation,
                              v: Value)
    requires Sanctioned(registry, remote) && CurrentRevision(registry, id).Some? && BuiltInRevision(id).Some?
    requires registry.value[id].validate(operation, v).Some?
    ensures Survives(registry, id, Restored(registry.value[id].validate(operation, v).value))
  {
    hide Survives, PrfAccepted, LargeBlobAccepted, BuiltInRevision;
    ReservedAreBuiltIn(id, remote);
    assert Some(registry.value[id].validate) == BuiltInValidator(id, remote);
    if id == "prf" {
      PrfInputsSurvive(registry, operation, v);
    } else if id == "largeBlob" {
      LargeBlobInputsSurvive(registry, LargeBlobAccepted(operation, v).value);
    } else {
      SimpleInputsSurvive(registry, id, Restored(registry.value[id].validate(operation, v).value));
    }
  }

  /** An identifier that ceremonies do not look at themselves only needs a stable handler. */
  lemma OtherInputSurvives(registry: Option<Registry>, id: string, input: Input)
    requires BuiltInRevision(id).None?
    requires CurrentRevision(registry, id).Some? ==> StableAt(registry.value[id], InputValue(input))
    ensures Survives(registry, id, input)
  {
    hide StableAt, PrfOf, LargeBlobOf;
  }

  /** Whatever start keeps of an input, registered or not, survives storage. */
  lemma PreparedSurvives(operation: Operation, registry: Registry, rejectUnknown: bool, transform: Transform,
                         remote: RemoteCheck, id: string, input: Input)
    requires Sanctioned(Some(registry), remote)
    requires Prepared(operation, registry, rejectUnknown, transform, id, input).Some?
    ensures Survives(Some(registry), id, Prepared(operation, registry, rejectUnknown, transform, id, input).value)
  {
    hide Survives, Copies, BuiltInRevision, CloneWalk.CloneAccepts, StableAt, ValidIdentifier, BuiltInValidator;
    var kept := Prepared(operation, registry, rejectUnknown, transform, id, input).value;
    if id in registry {
      var before := InputValue(transform(id, input).value);
      var v := registry[id].validate(operation, before).value;
      assert kept == Restored(v);
      assert CurrentRevision(Some(registry), id).Some?;
      if BuiltInRevision(id).Some? {
        BuiltInResultSurvives(Some(registry), remote, id, operation, before);
      } else {
        InputBehindBoundary(v);
        OtherInputSurvives(Some(registry), id, kept);
      }
    } else {
      OtherInputSurvives(Some(registry), id, kept);
    }
  }

  /** So the inputs of every started ceremony are decided about alike, live and restored. */
  lemma StartedInputsSurvive(operation: Operation, inputs: map<string, Input>, registry: Option<Registry>,
                             rejectUnknown: bool, transform: Transform, remote: RemoteCheck)
    requires Sanctioned(registry, remote) && Preparable(operation, inputs, registry, rejectUnknown, transform)
    ensures AllSurvive(registry, PreparedInputs(operation, inputs, registry, rejectUnknown, transform))
  {
    hide Sanctioned, Survives, Prepared;
    forall id | id in PreparedInputs(operation, inputs, registry, rejectUnknown, transform)
      ensures Survives(registry, id, PreparedInputs(operation, inputs, registry, rejectUnknown, transform)[id])
    {
      PreparedSurvives(operation, registry.value, rejectUnknown, transform, remote, id, inputs[id]);
    }
  }

  /** A handler that insists on a list of texts: storage does not keep the element type. */
  function TypedListHandler(): Handler {
    Handler("1", (operation: Operation, v: Value) => if v == List(TextList, []) then Some(v) else None, q => None)
  }

  /** An application handler that is not stable may refuse at finish what it normalized to at start. */
  lemma UnstableHandlerRefuses(operation: Operation)
    ensures var handler, v := TypedListHandler(), List(TextList, []);
            && handler.validate(operation, v) == Some(v)
            && handler.validate(operation, AfterStorage(v)).None?
            && !StableResults(handler)
  {
    var handler, v := TypedListHandler(), List(TextList, []);
    assert AfterStorage(v) == List(AnyList, []);
    assert !StableAt(handler, v) by {
      assert handler.validate(operation, AfterStorage(v)) != handler.validate(operation, v);
    }
    assert handler.validate(operation, v).Some?;
  }

  // ----- Start, store, finish -----

  type InputText = TextLayer<map<string, EncodedValue>>

  /** The inputs marshal into an envelope of a kind, through a text layer that carries this envelope. */
  ghost predicate Marshals(text: InputText, kind: EnvelopeKind, inputs: map<string, Input>) {
    && Writable(inputs)
    && RoundTrips(text, StateEnvelope(kind, EncodedInputs(inputs)))
    && CarriesStrings(text, kind, EncodedInputs(inputs))
    && MarshalEnvelope(text, StateEnvelope(kind, EncodedInputs(inputs))).Some?
  }

  /** What unmarshalling gives back: the decoded payload of the marshalled envelope. */
  ghost function Unmarshalled(text: InputText, kind: EnvelopeKind, inputs: map<string, Input>): map<string, Input>
    requires StateKind(kind) && Marshals(text, kind, inputs)
  {
    MarshalledInputsReadBack(text, kind, inputs);
    var data := MarshalEnvelope(text, StateEnvelope(kind, EncodedInputs(inputs))).value;
    DecodedInputs(PayloadOf(text.parse(data).value, kind).value)
  }

  lemma UnmarshalledIsRestored(text: InputText, kind: EnvelopeKind, inputs: map<string, Input>)
    requires StateKind(kind) && Marshals(text, kind, inputs)
    ensures Stores(inputs) && Unmarshalled(text, kind, inputs) == RestoredInputs(inputs)
  {
    hide Writable, ReadableInputs, EncodedInputs, DecodedInputs, RoundTrips, CarriesStrings, MarshalEnvelope, Canon,
      Plain, Restored, InputValue, PayloadOf;
    MarshalledInputsReadBack(text, kind, inputs);
  }

  /** A login ceremony through storage: the state passes validation again, finish at the issuing party comes to the
      verdict it would have come to about the state in memory, on the same evidence and with the same results, and
      the only fault of the state itself is its expiry. */
  lemma AuthenticationThroughStorage(outside: Outside, crypto: Crypto, p: Party, o: OutputPolicy, remote: RemoteCheck,
                                     request: AuthenticationRequest, generated: Option<seq<byte>>, startedAt: Time,
                                     text: InputText, q: FinishRequest, back: FinishRequest)
    requires Sanctioned(p.config.registry, remote) && startedAt >= 0
    requires AuthenticationIssued(outside, p, request, generated, startedAt, q.state)
    requires Marshals(text, AuthenticationStateKind, q.state.requested.inputs)
    requires back == q.(state := q.state.(requested := q.state.requested.(inputs :=
               Unmarshalled(text, AuthenticationStateKind, q.state.requested.inputs))))
    ensures ValidAuthentication(outside, back.state)
    ensures PartyFault(outside, crypto, p, o, back) == PartyFault(outside, crypto, p, o, q)
    ensures EvidenceOf(crypto, PolicyOf(p, o), back) == EvidenceOf(crypto, PolicyOf(p, o), q)
    ensures PartyFault(outside, crypto, p, o, back).None? ==> EvidenceOf(crypto, PolicyOf(p, o), q).Ok?
    ensures EvidenceOf(crypto, PolicyOf(p, o), q).Ok? ==>
              forall result ::
                Returns(crypto, PolicyOf(p, o), back, result) <==> Returns(crypto, PolicyOf(p, o), q, result)
    ensures var fault := PartyFault(outside, crypto, p, o, back);
            fault.Some? && StateFault(fault.value) ==> fault == Some(Expired) && q.now >= startedAt + p.config.ttl
  {
    hide Sanctioned, AuthenticationStartable, PreparedInputs, AllSurvive, Stores, Marshals, Unmarshalled,
      RestoredInputs, FinishFault, EvidenceOf, ValidAuthentication, Freezes, ValidRecord, NextRecord, UpdateFor,
      CompareCounters, UserPresent, UserVerified, BackedUp, StateFault;
    IssuedInputsSurvive(outside, p, remote, request, generated, startedAt, q.state);
    UnmarshalledIsRestored(text, AuthenticationStateKind, q.state.requested.inputs);
    RestoredStateIsValid(outside, p.config.registry, q.state);
    FinishSurvivesStorage(outside, crypto, PolicyOf(p, o), q);
    OwnStateIsNotRejected(outside, crypto, p, o, q);
    if PartyFault(outside, crypto, p, o, q).None? { AcceptedIsBound(outside, crypto, PolicyOf(p, o), q); }
  }

  lemma IssuedInputsSurvive(outside: Outside, p: Party, remote: RemoteCheck, request: AuthenticationRequest,
                            generated: Option<seq<byte>>, startedAt: Time, s: AuthenticationState)
    requires Sanctioned(p.config.registry, remote)
    requires AuthenticationIssued(outside, p, request, generated, startedAt, s)
    ensures AllSurvive(p.config.registry, s.requested.inputs)
  {
    hide Sanctioned, Preparable, PreparedInputs, AllSurvive, ValidScope, LargeBlobContext, AllCopy, RemoteAgrees,
      ValidAuthentication, Freezes, ValidDescriptors;
    StartedInputsSurvive(Authentication, request.extensions, p.config.registry,
                         p.config.rejectUnknownAtAuthentication, AttachAllowed(request.allow), remote);
  }

  lemma IssuedRegistrationSurvives(outside: Outside, p: Party, remote: RemoteCheck, request: RegistrationRequest,
                                   generated: Option<seq<byte>>, startedAt: Time, s: RegistrationState)
    requires Sanctioned(p.config.registry, remote)
    requires RegistrationIssued(outside, p, request, generated, startedAt, s)
    ensures AllSurvive(p.config.registry, s.requested.inputs)
  {
    hide Sanctioned, Preparable, PreparedInputs, AllSurvive, ValidScope, AllCopy, RemoteAgrees, ValidRegistration,
      Freezes, ValidDescriptors, FilteredParameters, ValidIdentifier;
    StartedInputsSurvive(Operation.Registration, request.extensions, p.config.registry,
                         p.config.rejectUnknownAtRegistration, KeepInput(), remote);
  }

  /** A registration ceremony through storage yields the record, or the fault, of the state in memory, and the only
      fault of the state itself is its expiry. */
  lemma RegistrationThroughStorage(outside: Outside, v: Registration.Verifiers, p: Party, o: Registration.OutputPolicy,
                                   remote: RemoteCheck, request: RegistrationRequest, generated: Option<seq<byte>>,
                                   startedAt: Time, text: InputText, q: Registration.RegistrationFinish,
                                   back: Registration.RegistrationFinish)
    requires Ready(outside, p) && Sanctioned(p.config.registry, remote) && startedAt >= 0
    requires RegistrationIssued(outside, p, request, generated, startedAt, q.state)
    requires Marshals(text, RegistrationStateKind, q.state.requested.inputs)
    requires back == q.(state := q.state.(requested := q.state.requested.(inputs :=
               Unmarshalled(text, RegistrationStateKind, q.state.requested.inputs))))
    ensures ValidRegistration(outside, back.state)
    ensures Registration.PartyRegistration(outside, v, p, o, back)
              == Registration.PartyRegistration(outside, v, p, o, q)
    ensures var r := Registration.PartyRegistration(outside, v, p, o, back);
            r.Err? && Registration.StateFault(r.error) ==>
              r == Err(Registration.Expired) && q.now >= startedAt + p.config.ttl
  {
    hide Sanctioned, RegistrationStartable, PreparedInputs, AllSurvive, Stores, Marshals, Unmarshalled,
      RestoredInputs, Registration.FinishedRegistration, ValidRegistration, Freezes, Ready, Registration.StateFault,
      AlgorithmsAccepted;
    IssuedRegistrationSurvives(outside, p, remote, request, generated, startedAt, q.state);
    UnmarshalledIsRestored(text, RegistrationStateKind, q.state.requested.inputs);
    RestoredRegistrationIsValid(outside, q.state);
    RegistrationSurvivesStorage(outside, v, Registration.PolicyOf(p, o), q);
    Registration.OwnStateIsNotRejected(outside, v, p, o, q);
  }

  // ----- Such ceremonies exist -----

  function ExampleRegistry(): Registry {
    map["appid" := Handler("webauthn-3-20260825", TextValidator({Authentication}), q => None)]
  }

  function RegisteredParty(): Party {
    var p := ExampleParty();
    p.(config := p.config.(registry := Some(ExampleRegistry())))
  }

  function ExampleInputs(): map<string, Input> { map["appid" := TextInput("u")] }

  function ExampleLogin(): AuthenticationRequest { AuthenticationRequest([], [2], ExampleInputs()) }

  function ExampleState(): AuthenticationState {
    AuthenticationState([3], "r", ExampleParty().config.policy, UvPreferred,
                        Requested(ExampleInputs(), [Binding("appid", "webauthn-3-20260825")]), [], [2],
                        DEFAULT_CHALLENGE_TTL)
  }

  lemma ExampleIsSanctioned(remote: RemoteCheck)
    ensures Sanctioned(Some(ExampleRegistry()), remote)
  {}

  lemma ExampleCopies()
    ensures CloneWalk.CloneAccepts(Text("u")) && WritableEntry("appid", TextInput("u"))
  {}

  lemma ExampleSizes()
    ensures TreeSize(Plain(Text("u")), Nodes) == 1 && TreeSize(Plain(Text("u")), Octets) == 1
    ensures StoredSize(Encoded(Plain(Text("u"))), Octets) == 1
  {}

  lemma ExampleIsWritable()
    ensures Writable(ExampleInputs()) && CarriedOctets(EncodedInputs(ExampleInputs())) == 6
  {
    hide WritableEntry, TreeSize, StoredSize, FieldsSize, MembersSize, Plain, Encoded, EncodedInputs, Bundle;
    ExampleCopies();
    ExampleSizes();
    OneInputSizes("appid", TextInput("u"), Nodes);
    OneInputSizes("appid", TextInput("u"), Octets);
  }

  lemma ExampleIsPrepared()
    ensures Preparable(Authentication, ExampleInputs(), Some(ExampleRegistry()), true, AttachAllowed([]))
    ensures PreparedInputs(Authentication, ExampleInputs(), Some(ExampleRegistry()), true, AttachAllowed([]))
         == ExampleInputs()
  {
    hide CloneWalk.CloneAccepts, WritableEntry;
    ExampleCopies();
    assert Prepared(Authentication, ExampleRegistry(), true, AttachAllowed([]), "appid", TextInput("u"))
        == Some(TextInput("u"));
  }

  lemma ExampleIsBound()
    ensures Freezes(ExampleState().requested.bindings, Some(ExampleRegistry()), ExampleInputs().Keys)
    ensures ValidRequested(ExampleState().requested)
  {
    hide Freezes, WellBound, Preparable, PreparedInputs, AttachAllowed, ValidRegistry;
    var registry := ExampleRegistry();
    NothingFrozen(registry);
    FreezeNext([], registry, {}, "appid");
    assert {} + {"appid"} == ExampleInputs().Keys;
    assert [] + [Binding("appid", "webauthn-3-20260825")] == ExampleState().requested.bindings;
    ExampleRegistryIsValid();
    ExampleIsPrepared();
    StartEstablishesBindings(Authentication, ExampleInputs(), Some(registry), true, AttachAllowed([]),
                             ExampleState().requested);
  }

  lemma ExampleIdsAreValid()
    ensures ValidIdentifier("appid") && ValidIdentifier("webauthn-3-20260825")
  {}

  lemma ExampleRegistryIsValid()
    ensures ValidRegistry(ExampleRegistry())
  {
    hide ValidIdentifier;
    ExampleIdsAreValid();
  }

  lemma ExampleIsStartable()
    ensures AuthenticationStartable(ExampleOutside(),
              AuthenticationOptions(RegisteredParty(), ExampleLogin(), Some([3]), 0))
  {
    hide CloneWalk.CloneAccepts, WritableEntry, Preparable, PreparedInputs, AttachAllowed;
    ExampleCopies();
    ExampleIsPrepared();
  }

  lemma ExampleIsIssued()
    ensures AuthenticationIssued(ExampleOutside(), RegisteredParty(), ExampleLogin(), Some([3]), 0, ExampleState())
  {
    hide AuthenticationStartable, Freezes, ValidRequested, Preparable, PreparedInputs, AttachAllowed;
    ExampleIsStartable();
    ExampleIsPrepared();
    ExampleIsBound();
  }

  /** A party with a registered handler issues a state with an input, and some text layer marshals it. */
  lemma SomeCeremonyGoesThroughStorage(remote: RemoteCheck) returns (text: InputText)
    ensures Sanctioned(RegisteredParty().config.registry, remote)
    ensures AuthenticationIssued(ExampleOutside(), RegisteredParty(), ExampleLogin(), Some([3]), 0, ExampleState())
    ensures Marshals(text, AuthenticationStateKind, ExampleState().requested.inputs)
    ensures "appid" in ExampleState().requested.inputs
  {
    hide Sanctioned, AuthenticationIssued, Writable, EncodedInputs, CarriedOctets, RoundTrips, CarriesStrings,
      MarshalEnvelope;
    ExampleIsSanctioned(remote);
    ExampleIsIssued();
    ExampleIsWritable();
    text := SomeLayerMarshals(AuthenticationStateKind, ExampleInputs());
  }
}
