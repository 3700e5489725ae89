// A ceremony state that has gone through storage is decided about as the live state: its validity, its
// bindings, the evidence checks and the extension handlers all come to the same end.
module StoredCeremonies {
  import opened Base
  import opened Values
  import opened AuthenticatorData
  import opened EncodedValues
  import opened StoredInputs
  import opened InputHandlers
  import opened Extensions
  import opened ExtensionResults
  import opened Ceremonies
  import opened Authentication
  import opened ValueCodec
  import CloneWalk
  import Registration

  /** The inputs as storage gives them back. */
  function RestoredInputs(inputs: map<string, Input>): map<string, Input> { DecodedInputs(EncodedInputs(inputs)) }

  /** Inputs that can be written and read back. */
  ghost predicate Stores(inputs: map<string, Input>) { Writable(inputs) && ReadableInputs(EncodedInputs(inputs)) }

  /** Everything that marshals into an envelope of permitted size can be stored. */
  lemma EnvelopeStores(inputs: map<string, Input>, textLength: nat)
    requires Writable(inputs)
    requires MembersSize(StoredBundle(EncodedInputs(inputs)), EncodedInputs(inputs).Keys, Octets)
             <= textLength <= MAX_ENVELOPE_BYTES
    ensures Stores(inputs)
  {
    MarshalImpliesUnmarshal(inputs, textLength);
  }

  /** Live and restored inputs are copied without exceeding the copy's budget. */
  lemma InputCopies(inputs: map<string, Input>, id: string)
    requires Stores(inputs) && id in inputs
    ensures id in RestoredInputs(inputs)
    ensures Copies(inputs[id]) && Copies(RestoredInputs(inputs)[id])
    ensures InputValue(RestoredInputs(inputs)[id]) == AfterStorage(InputValue(inputs[id]))
  {
    hide TreeSize, StoredSize, FieldsSize, MembersSize, Readable, Decoded, Encoded, CloneWalk.CloneAccepts, Plain,
      Canon, Storable;
    var stored := EncodedInputs(inputs);
    MembersSizeAnyOrder(StoredBundle(stored), stored.Keys, id, Nodes);
    MembersSizeAnyOrder(StoredBundle(stored), stored.Keys, id, Octets);
    CopyAfterDecodeFits(stored[id]);
    InputBehindBoundary(Decoded(stored[id]));
    RestoredInput(inputs, id);
    assert WritableEntry(id, inputs[id]);
  }

  lemma SameKeys(inputs: map<string, Input>)
    ensures RestoredInputs(inputs).Keys == inputs.Keys && |RestoredInputs(inputs)| == |inputs|
  {
    hide Encoded, Decoded, Plain;
    assert RestoredInputs(inputs).Keys == inputs.Keys;
    assert |RestoredInputs(inputs)| == |RestoredInputs(inputs).Keys|;
  }

  // ----- Inputs that handlers decide about alike before and after storage -----

  /** The handler normalizes the stored value as it normalizes the live one. */
  ghost predicate StableAt(handler: Handler, v: Value) {
    forall operation :: handler.validate(operation, AfterStorage(v)) == handler.validate(operation, v)
  }

  /** Texts and flags are behind their typed boundary. */
  predicate AtBoundary(input: Input) { input.Raw? ==> !input.value.Text? && !input.value.Bool? }

  /** What an input needs for a decision to be the same after storage: a stable handler, and for the identifiers that
      ceremonies look at themselves, the same reading. */
  ghost predicate Survives(registry: Option<Registry>, id: string, input: Input) {
    var v := InputValue(input);
    && (CurrentRevision(registry, id).Some? ==> StableAt(registry.value[id], v))
    && (id == "prf" ==> PrfOf(AfterStorage(v)) == PrfOf(v))
    && (id == "largeBlob" ==> LargeBlobOf(AfterStorage(v)) == LargeBlobOf(v))
    && (id == "appid" || id == "remoteClientDataJSON" ==> AtBoundary(input))
  }

  ghost predicate AllSurvive(registry: Option<Registry>, inputs: map<string, Input>) {
    forall id :: id in inputs ==> Survives(registry, id, inputs[id])
  }

  lemma {:induction false} CanonKeepsPlain(v: Value)
    requires IsPlain(v)
    ensures IsPlain(Canon(v))
  {
    match v
    case List(_, items) =>
      forall i | 0 <= i < |items| ensures IsPlain(Canon(v).items[i]) { CanonKeepsPlain(items[i]); }
    case Object(_, fields) =>
      forall k | k in fields ensures IsPlain(Canon(v).fields[k]) { CanonKeepsPlain(fields[k]); }
    case _ =>
  }

  /** Storing a second time changes nothing. */
  lemma StorageIdempotent(v: Value)
    ensures AfterStorage(AfterStorage(v)) == AfterStorage(v)
  {
    hide Plain, Canon, IsPlain;
    PlainIsPlain(v);
    CanonKeepsPlain(Plain(v));
    PlainOfPlain(Canon(Plain(v)));
    CanonIdempotent(Plain(v));
  }

  /** A restored input survives every further storage, whatever the handlers are. */
  lemma RestoredSurvives(registry: Option<Registry>, id: string, v: Value)
    ensures Survives(registry, id, Restored(AfterStorage(v)))
  {
    hide AfterStorage, PrfOf, LargeBlobOf, CurrentRevision;
    InputBehindBoundary(AfterStorage(v));
    StorageIdempotent(v);
  }

  /** So a ceremony can be stored any number of times. */
  lemma RestoredInputsSurvive(registry: Option<Registry>, inputs: map<string, Input>)
    requires Writable(inputs)
    ensures AllSurvive(registry, RestoredInputs(inputs))
  {
    hide Writable, EncodedInputs, DecodedInputs, Survives, Plain, Canon, Restored, InputValue;
    WrittenReadsBack(inputs);
    forall id | id in RestoredInputs(inputs) ensures Survives(registry, id, RestoredInputs(inputs)[id]) {
      RestoredSurvives(registry, id, InputValue(inputs[id]));
    }
  }

  /** The prf handler's input check. */
  function PrfValidator(): (Operation, Value) -> Option<Value> {
    (operation, v) => match PrfAccepted(operation, v) case Some(p) => Some(Prf(p)) case None => None
  }

  /** The largeBlob handler's input check. */
  function LargeBlobValidator(): (Operation, Value) -> Option<Value> {
    (operation, v) => match LargeBlobAccepted(operation, v) case Some(l) => Some(LargeBlob(l)) case None => None
  }

  /** The prf handler is stable at what it normalizes to. */
  lemma PrfInputsSurvive(registry: Option<Registry>, operation: Operation, v: Value)
    requires CurrentRevision(registry, "prf").Some? ==> registry.value["prf"].validate == PrfValidator()
    requires PrfAccepted(operation, v).Some?
    ensures Survives(registry, "prf", PrfIn(PrfAccepted(operation, v).value))
  {
    hide AfterStorage, PrfFromFields, PrfAllowed;
    PrfOfHasFirsts(v);
    PrfSurvivesStorage(PrfAccepted(operation, v).value);
  }

  /** The largeBlob handler is stable at every typed input. */
  lemma LargeBlobInputsSurvive(registry: Option<Registry>, l: LargeBlobInput)
    requires CurrentRevision(registry, "largeBlob").Some? ==>
              registry.value["largeBlob"].validate == LargeBlobValidator()
    ensures Survives(registry, "largeBlob", LargeBlobIn(l))
  {
    hide AfterStorage, LargeBlobOf, LargeBlobAllowed;
    LargeBlobSurvivesStorage(l);
  }

  // ----- State validity -----

  lemma WellBoundByKeys(a: map<string, Input>, b: map<string, Input>, bindings: seq<Binding>)
    requires a.Keys == b.Keys && WellBound(a, bindings)
    ensures WellBound(b, bindings)
  {
    hide BuiltInRevision, ValidBinding, SortedBindings;
    assert forall id :: id in b ==> id in a;
    assert forall i :: 0 <= i < |bindings| ==> bindings[i].id in b by {
      assert forall i :: 0 <= i < |bindings| ==> bindings[i].id in a.Keys;
    }
  }

  function RestoredRequest(r: Requested): Requested { r.(inputs := RestoredInputs(r.inputs)) }

  lemma RequestedSurvives(r: Requested)
    ensures ValidRequested(RestoredRequest(r)) <==> ValidRequested(r)
    ensures forall registry :: BindingsAgree(RestoredRequest(r), registry) <==> BindingsAgree(r, registry)
  {
    hide RestoredInputs, WellBound, ValidIdentifier, RecordedRevision, CurrentRevision;
    SameKeys(r.inputs);
    if WellBound(r.inputs, r.bindings) { WellBoundByKeys(r.inputs, RestoredInputs(r.inputs), r.bindings); }
    if WellBound(RestoredInputs(r.inputs), r.bindings) {
      WellBoundByKeys(RestoredInputs(r.inputs), r.inputs, r.bindings);
    }
  }

  /** The largeBlob rule decides the same about the restored input, absent, empty and false members included. */
  lemma LargeBlobContextSurvives(registry: Option<Registry>, inputs: map<string, Input>, allow: seq<Descriptor>)
    requires Stores(inputs) && AllSurvive(registry, inputs)
    ensures LargeBlobContext(RestoredInputs(inputs), allow) <==> LargeBlobContext(inputs, allow)
  {
    hide Stores, RestoredInputs, AfterStorage, LargeBlobOf, Copies, CurrentRevision, PrfOf;
    SameKeys(inputs);
    if "largeBlob" in inputs {
      assert Survives(registry, "largeBlob", inputs["largeBlob"]);
      InputCopies(inputs, "largeBlob");
    }
  }

  function RestoredAuthentication(s: AuthenticationState): AuthenticationState {
    s.(requested := RestoredRequest(s.requested))
  }

  function RestoredRegistration(s: RegistrationState): RegistrationState {
    s.(requested := RestoredRequest(s.requested))
  }

  /** A stored state is valid exactly when the live one was. */
  lemma RestoredStateIsValid(outside: Outside, registry: Option<Registry>, s: AuthenticationState)
    requires Stores(s.requested.inputs) && AllSurvive(registry, s.requested.inputs)
    ensures ValidAuthentication(outside, RestoredAuthentication(s)) <==> ValidAuthentication(outside, s)
  {
    hide Stores, AllSurvive, ValidRequested, LargeBlobContext, ValidScope, ValidDescriptors, BindingsAgree;
    RequestedSurvives(s.requested);
    LargeBlobContextSurvives(registry, s.requested.inputs, s.allow);
  }

  // ----- Extension results -----

  /** Two works that differ in the form of their inputs only. */
  ghost predicate SameWork(w: Work, w': Work) {
    w' == w.(requested := w'.requested) && w'.requested.Keys == w.requested.Keys
  }

  /** Their inputs for one identifier are equal, or both copy and are normalized alike. */
  ghost predicate SameInput(w: Work, w': Work, id: string) {
    var a, b := TransformedInput(w, id), TransformedInput(w', id);
    a == b ||
    (&& a.Ok? && b.Ok? && a.value.Some? && b.value.Some?
     && CopiesValue(a.value) && CopiesValue(b.value)
     && (Known(w, id) ==>
           forall operation ::
             w.registry.value[id].validate(operation, b.value.value)
                 == w.registry.value[id].validate(operation, a.value.value)))
  }

  lemma SameResult(w: Work, w': Work, id: string)
    requires SameWork(w, w') && SameInput(w, w', id)
    ensures ResultOf(w', id).Some? <==> ResultOf(w, id).Some?
  {
    hide TransformedInput, CopiesValue, CurrentRevision;
    assert id in w'.requested <==> id in w.requested by { assert id in w'.requested.Keys <==> id in w.requested.Keys; }
    InputIffRequested(w, id);
    InputIffRequested(w', id);
  }

  lemma InputIffRequested(w: Work, id: string)
    ensures TransformedInput(w, id).Ok? ==> (TransformedInput(w, id).value.Some? <==> id in w.requested)
  {}

  lemma SameResults(w: Work, w': Work)
    requires SameWork(w, w') && forall id :: id in WorkIds(w) ==> SameInput(w, w', id)
    ensures WithinWork(w') <==> WithinWork(w)
    ensures (forall id :: id in WorkIds(w') ==> ResultOf(w', id).Some?) <==>
              (forall id :: id in WorkIds(w) ==> ResultOf(w, id).Some?)
  {
    hide SameInput, ResultOf, ValidIdentifier;
    assert WorkIds(w') == WorkIds(w);
    assert |w'.requested| == |w'.requested.Keys| == |w.requested|;
    forall id | id in WorkIds(w) ensures ResultOf(w', id).Some? <==> ResultOf(w, id).Some? { SameResult(w, w', id); }
  }

  /** A kept input, live and restored. */
  lemma KeptInputSame(w: Work, w': Work, id: string)
    requires Stores(w.requested) && AllSurvive(w.registry, w.requested)
              && w' == w.(requested := RestoredInputs(w.requested))
    requires id in w.requested ==> w.transform(id, w.requested[id]) == Some(w.requested[id])
    requires id in w.requested && id in w'.requested ==> w.transform(id, w'.requested[id]) == Some(w'.requested[id])
    ensures SameInput(w, w', id)
  {
    hide Stores, RestoredInputs, AfterStorage, CloneWalk.CloneAccepts, PrfOf, LargeBlobOf;
    SameKeys(w.requested);
    if id in w.requested {
      InputCopies(w.requested, id);
      assert Survives(w.registry, id, w.requested[id]);
    } else {
      assert id !in w'.requested.Keys;
    }
  }

  /** A prf input to which the ceremony's credentials are attached, live and restored. */
  lemma AttachedInputSame(allow: seq<Descriptor>, w: Work, w': Work)
    requires Stores(w.requested) && AllSurvive(w.registry, w.requested)
              && w' == w.(requested := RestoredInputs(w.requested))
    requires w.transform == AttachAllowed(allow) && "prf" in w.requested
    ensures SameInput(w, w', "prf")
  {
    hide Stores, RestoredInputs, AfterStorage, CloneWalk.CloneAccepts, PrfOf, LargeBlobOf, AllowedTexts;
    SameKeys(w.requested);
    InputCopies(w.requested, "prf");
    assert Survives(w.registry, "prf", w.requested["prf"]);
  }

  // ----- What ceremonies read themselves -----

  lemma StoredText(v: Value, t: string)
    ensures AfterStorage(v) == Text(t) <==> v == Text(t)
  {
    hide PrfObject, PrfValuesObject, LargeBlobObject;
    if BuiltIn(v) { NormalizeIsPlain(v); }
  }

  /** A text input comes back as that text, and nothing else comes back as a text. */
  lemma TextSurvives(inputs: map<string, Input>, id: string, t: string)
    requires Stores(inputs) && id in inputs && AtBoundary(inputs[id])
    ensures id in RestoredInputs(inputs)
    ensures RestoredInputs(inputs)[id] == TextInput(t) <==> inputs[id] == TextInput(t)
  {
    hide Writable, ReadableInputs, EncodedInputs, DecodedInputs, Plain, Canon, AfterStorage;
    WrittenReadsBack(inputs);
    StoredText(InputValue(inputs[id]), t);
    assert RestoredInputs(inputs)[id]
        == Restored(AfterStorage(InputValue(inputs[id]))) by { hide Restored; AfterStorageIs(InputValue(inputs[id])); }
  }

  lemma AfterStorageIs(v: Value)
    ensures AfterStorage(v) == Canon(Plain(v))
  {}

  lemma RemoteBoundSurvives(registry: Option<Registry>, r: Requested, clientDataJson: string)
    requires Stores(r.inputs) && AllSurvive(registry, r.inputs)
    ensures RemoteBound(RestoredRequest(r), clientDataJson) <==> RemoteBound(r, clientDataJson)
  {
    hide Stores, RestoredInputs, AfterStorage, StableAt, CurrentRevision, PrfOf, LargeBlobOf;
    SameKeys(r.inputs);
    var id := "remoteClientDataJSON";
    if id in r.inputs {
      assert Survives(registry, id, r.inputs[id]);
      TextSurvives(r.inputs, id, clientDataJson);
    }
  }

  lemma ExpectedHashSurvives(crypto: Crypto, policy: AuthPolicy, s: AuthenticationState, r: AuthenticationResponse)
    requires Stores(s.requested.inputs) && AllSurvive(policy.registry, s.requested.inputs)
    ensures ExpectedHash(crypto, policy, RestoredAuthentication(s), r) == ExpectedHash(crypto, policy, s, r)
  {
    hide Stores, RestoredInputs, AfterStorage, StableAt, CurrentRevision, PrfOf, LargeBlobOf;
    var inputs, id := s.requested.inputs, "appid";
    SameKeys(inputs);
    if id in inputs {
      assert Survives(policy.registry, id, inputs[id]);
      if inputs[id].TextInput? { TextSurvives(inputs, id, inputs[id].text); }
      if RestoredInputs(inputs)[id].TextInput? { TextSurvives(inputs, id, RestoredInputs(inputs)[id].text); }
    }
  }

  // ----- Finishing an authentication -----

  function RestoredFinish(q: FinishRequest): FinishRequest { q.(state := RestoredAuthentication(q.state)) }

  lemma AttachKeepsOthers(allow: seq<Descriptor>, id: string, input: Input)
    requires id != "prf"
    ensures AttachAllowed(allow)(id, input) == Some(input)
  {}

  lemma ExtensionsPassSurvives(policy: AuthPolicy, q: FinishRequest, outputs: map<string, Value>)
    requires Stores(q.state.requested.inputs) && AllSurvive(policy.registry, q.state.requested.inputs)
    ensures ExtensionsPass(policy, RestoredFinish(q), outputs) <==> ExtensionsPass(policy, q, outputs)
  {
    hide Stores, AllSurvive, RestoredInputs, RemoteBound, WithinWork, ResultOf, SameInput, AttachAllowed;
    RemoteBoundSurvives(policy.registry, q.state.requested, q.response.clientDataJson);
    SameKeys(q.state.requested.inputs);
    var w := WorkFor(policy, q.state, q.response, q.credential, outputs);
    var w' := w.(requested := RestoredInputs(w.requested));
    forall id | id in WorkIds(w) ensures SameInput(w, w', id) {
      if id == "prf" && id in w.requested {
        AttachedInputSame(q.state.allow, w, w');
      } else {
        if id in w.requested { AttachKeepsOthers(q.state.allow, id, w.requested[id]); }
        if id in w'.requested && id in w.requested { AttachKeepsOthers(q.state.allow, id, w'.requested[id]); }
        KeptInputSame(w, w', id);
      }
    }
    SameResults(w, w');
  }

  lemma EvidenceSurvives(crypto: Crypto, policy: AuthPolicy, q: FinishRequest)
    requires Stores(q.state.requested.inputs) && AllSurvive(policy.registry, q.state.requested.inputs)
    ensures EvidenceOf(crypto, policy, RestoredFinish(q)) == EvidenceOf(crypto, policy, q)
  {
    hide Stores, AllSurvive, RestoredInputs, ExpectedHash, Parse, DecodeOutputs;
    ExpectedHashSurvives(crypto, policy, q.state, q.response);
  }

  lemma CeremonyFaultSurvives(outside: Outside, policy: AuthPolicy, q: FinishRequest)
    requires Stores(q.state.requested.inputs) && AllSurvive(policy.registry, q.state.requested.inputs)
    ensures CeremonyFault(outside, policy, RestoredFinish(q)) == CeremonyFault(outside, policy, q)
  {
    hide Stores, AllSurvive, RestoredInputs, ValidAuthentication, BindingsAgree, ValidRequested, ClientOutputsOk;
    RestoredStateIsValid(outside, policy.registry, q.state);
    RequestedSurvives(q.state.requested);
  }

  /** Finish comes to the same verdict about the restored state as about the live one: the same fault, or acceptance
      with the same evidence, and hence the same record and update. */
  lemma FinishSurvivesStorage(outside: Outside, crypto: Crypto, policy: AuthPolicy, q: FinishRequest)
    requires Stores(q.state.requested.inputs) && AllSurvive(policy.registry, q.state.requested.inputs)
    ensures FinishFault(outside, crypto, policy, RestoredFinish(q)) == FinishFault(outside, crypto, policy, q)
    ensures EvidenceOf(crypto, policy, RestoredFinish(q)) == EvidenceOf(crypto, policy, q)
  {
    hide Stores, AllSurvive, RestoredFinish, CeremonyFault, EvidenceOf, ExtensionsPass;
    CeremonyFaultSurvives(outside, policy, q);
    EvidenceSurvives(crypto, policy, q);
    var evidence := EvidenceOf(crypto, policy, q);
    if evidence.Ok? { ExtensionsPassSurvives(policy, q, evidence.value.1); }
  }

  // ----- Finishing a registration -----

  function RestoredEnrolment(q: Registration.RegistrationFinish): Registration.RegistrationFinish {
    q.(state := RestoredRegistration(q.state))
  }

  /** A stored registration state is valid exactly when the live one was. */
  lemma RestoredRegistrationIsValid(outside: Outside, s: RegistrationState)
    ensures ValidRegistration(outside, RestoredRegistration(s)) <==> ValidRegistration(outside, s)
  {
    hide ValidRequested, ValidScope, RestoredInputs, BindingsAgree;
    RequestedSurvives(s.requested);
  }

  lemma EnrolmentExtensionsSurvive(v: Registration.Verifiers, policy: Registration.RegistrationPolicy,
                                   q: Registration.RegistrationFinish, f: Registered)
    requires Stores(q.state.requested.inputs) && AllSurvive(policy.registry, q.state.requested.inputs)
    ensures Registration.ExtensionsPass(v, policy, RestoredEnrolment(q), f) <==>
              Registration.ExtensionsPass(v, policy, q, f)
  {
    hide Stores, AllSurvive, RestoredInputs, RemoteBound, WithinWork, ResultOf, SameInput;
    RemoteBoundSurvives(policy.registry, q.state.requested, q.response.clientDataJson);
    SameKeys(q.state.requested.inputs);
    var w := Registration.WorkFor(v, policy, q, f);
    var w' := w.(requested := RestoredInputs(w.requested));
    forall id | id in WorkIds(w) ensures SameInput(w, w', id) { KeptInputSame(w, w', id); }
    SameResults(w, w');
  }

  /** A restored registration state yields the record, or the fault, of the live one. */
  lemma RegistrationSurvivesStorage(outside: Outside, v: Registration.Verifiers,
      policy: Registration.RegistrationPolicy, q: Registration.RegistrationFinish)
    requires Stores(q.state.requested.inputs) && AllSurvive(policy.registry, q.state.requested.inputs)
    ensures Registration.FinishedRegistration(outside, v, policy, RestoredEnrolment(q))
         == Registration.FinishedRegistration(outside, v, policy, q)
  {
    hide Stores, AllSurvive, RestoredInputs, ValidRegistration, BindingsAgree, ValidRequested, ClientOutputsOk,
      Registration.ExtensionsPass, ReadRegistration, VerifyRegistrationData;
    RestoredRegistrationIsValid(outside, q.state);
    RequestedSurvives(q.state.requested);
    var decoded := Registration.DecodedObject(v, q);
    if decoded.Ok? {
      var fields := Registration.RegisteredFields(v, q, decoded.value);
      if fields.Ok? { EnrolmentExtensionsSurvive(v, policy, q, fields.value); }
    }
  }
}
