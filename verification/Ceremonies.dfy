// Ceremony state: how start builds it, and the checks it must pass when it comes back.
module Ceremonies {
  import opened Base
  import opened Values
  import opened InputHandlers
  import opened Extensions
  import Base64

  /** A nanosecond clock whose zero is the zero time. */
  type Time = int

  const MILLISECOND := 1_000_000
  const DEFAULT_BROWSER_TIMEOUT := 300_000 * MILLISECOND
  const DEFAULT_CHALLENGE_TTL := 600_000 * MILLISECOND
  const ES256 := -7
  const RS256 := -257

  datatype CeremonyError = InvalidConfiguration | InvalidState | GeneratorFailed

  datatype UserVerification = UvUnset | UvRequired | UvPreferred | UvDiscouraged | UvOther(text: string)

  predicate KnownUv(uv: UserVerification) { !uv.UvUnset? && !uv.UvOther? }

  datatype Conveyance = ConveyanceUnset | NoConveyance | Indirect | Direct | Enterprise | ConveyanceOther(text: string)

  predicate KnownConveyance(c: Conveyance) { !c.ConveyanceUnset? && !c.ConveyanceOther? }

  datatype CredentialType = TypeUnset | PublicKeyType | TypeOther(text: string)

  datatype Descriptor = Descriptor(kind: CredentialType, id: seq<byte>, transports: seq<string>)

  predicate ValidDescriptor(d: Descriptor) { d.kind.PublicKeyType? && d.id != [] }

  predicate ValidDescriptors(ds: seq<Descriptor>) { forall i :: 0 <= i < |ds| ==> ValidDescriptor(ds[i]) }

  datatype Parameter = Parameter(kind: CredentialType, algorithm: int)

  predicate ValidAlgorithm(a: int) { -0x8000_0000 <= a <= 0x7fff_ffff }

  predicate ValidParameter(p: Parameter) { !p.kind.TypeUnset? && ValidAlgorithm(p.algorithm) }

  datatype OriginPolicy = OriginPolicy(
    allowedOrigins: seq<string>, allowedTopOrigins: seq<string>,
    allowRelatedOrigins: bool, allowCrossOriginWithoutTopOrigin: bool)

  /** Checks that rest on URL and JSON parsing. */
  datatype Outside = Outside(
    validPolicy: OriginPolicy -> bool,
    scoped: (string, OriginPolicy) -> bool,
    remoteAgrees: (Operation, Value, seq<byte>) -> bool)

  predicate ValidScope(outside: Outside, rpId: string, policy: OriginPolicy) {
    rpId != "" && outside.validPolicy(policy) && outside.scoped(rpId, policy)
  }

  // ----- States -----

  datatype AuthenticationState = AuthenticationState(
    challenge: seq<byte>, rpId: string, policy: OriginPolicy, uv: UserVerification,
    requested: Requested, allow: seq<Descriptor>, expectedUser: seq<byte>, expiresAt: Time)

  datatype RegistrationState = RegistrationState(
    challenge: seq<byte>, rpId: string, policy: OriginPolicy, conditional: bool, user: seq<byte>,
    uv: UserVerification, requested: Requested, algorithms: seq<int>, conveyance: Conveyance, expiresAt: Time)

  /** Identifiers and bindings that a stored state may carry. */
  ghost predicate ValidRequested(r: Requested) {
    && |r.inputs| <= MAX_ENTRIES
    && (forall id :: id in r.inputs ==> ValidIdentifier(id))
    && WellBound(r.inputs, r.bindings)
  }

  /** A requested largeBlob input is acceptable, and writes only with exactly one allowed credential. */
  ghost predicate LargeBlobContext(inputs: map<string, Input>, allow: seq<Descriptor>) {
    "largeBlob" in inputs ==>
      && Copies(inputs["largeBlob"])
      && match LargeBlobAccepted(Authentication, InputValue(inputs["largeBlob"]))
         case None => false
         case Some(blob) => blob.write.Some? ==> |allow| == 1
  }

  ghost predicate ValidAuthentication(outside: Outside, s: AuthenticationState) {
    && s.challenge != []
    && ValidScope(outside, s.rpId, s.policy)
    && s.expiresAt != 0
    && KnownUv(s.uv)
    && ValidDescriptors(s.allow)
    && ValidRequested(s.requested)
    && LargeBlobContext(s.requested.inputs, s.allow)
  }

  ghost predicate ValidRegistration(outside: Outside, s: RegistrationState) {
    && s.challenge != []
    && ValidScope(outside, s.rpId, s.policy)
    && s.user != []
    && s.expiresAt != 0
    && s.algorithms != []
    && (forall i :: 0 <= i < |s.algorithms| ==> ValidAlgorithm(s.algorithms[i]))
    && KnownConveyance(s.conveyance)
    && KnownUv(s.uv)
    && ValidRequested(s.requested)
  }

  method ValidateRequested(r: Requested) returns (ok: bool)
    ensures ok <==> ValidRequested(r)
  {
    hide ValidIdentifier, WellBound;
    ok := ValidateRequestedIds(r.inputs);
    if ok {
      ok := ValidateBindingState(r.inputs, r.bindings);
    }
  }

  method ValidateLargeBlobContext(inputs: map<string, Input>, allow: seq<Descriptor>) returns (ok: bool)
    ensures ok <==> LargeBlobContext(inputs, allow)
  {
    hide Copies, LargeBlobAccepted;
    if "largeBlob" !in inputs {
      return true;
    }
    var copy := CloneInput(inputs["largeBlob"]);
    if copy.None? {
      return false;
    }
    var blob := LargeBlobAccepted(Authentication, InputValue(copy.value));
    return blob.Some? && !(blob.value.write.Some? && |allow| != 1);
  }

  method ValidateAuthentication(outside: Outside, s: AuthenticationState) returns (ok: bool)
    ensures ok <==> ValidAuthentication(outside, s)
  {
    hide ValidRequested, LargeBlobContext;
    if s.challenge == [] || !ValidScope(outside, s.rpId, s.policy) || s.expiresAt == 0 || !KnownUv(s.uv) {
      return false;
    }
    for i := 0 to |s.allow|
      invariant forall k :: 0 <= k < i ==> ValidDescriptor(s.allow[k])
    {
      if !ValidDescriptor(s.allow[i]) {
        return false;
      }
    }
    ok := ValidateRequested(s.requested);
    if ok {
      ok := ValidateLargeBlobContext(s.requested.inputs, s.allow);
    }
  }

  method ValidateRegistration(outside: Outside, s: RegistrationState) returns (ok: bool)
    ensures ok <==> ValidRegistration(outside, s)
  {
    hide ValidRequested;
    if s.challenge == [] || !ValidScope(outside, s.rpId, s.policy) || s.user == [] || s.expiresAt == 0
        || s.algorithms == [] {
      return false;
    }
    for i := 0 to |s.algorithms|
      invariant forall k :: 0 <= k < i ==> ValidAlgorithm(s.algorithms[k])
    {
      if !ValidAlgorithm(s.algorithms[i]) {
        return false;
      }
    }
    if !KnownConveyance(s.conveyance) || !KnownUv(s.uv) {
      return false;
    }
    ok := ValidateRequested(s.requested);
  }

  // ----- Start: shared pieces -----

  function OrDefault(value: int, default: int): int { if value == 0 then default else value }

  /** Both durations usable: not negative, the state outlives the browser hint, and the hint fits 32 bits. */
  predicate ValidDurations(timeout: int, ttl: int) {
    && timeout >= 0 && ttl >= 0
    && OrDefault(ttl, DEFAULT_CHALLENGE_TTL) >= OrDefault(timeout, DEFAULT_BROWSER_TIMEOUT)
    && OrDefault(timeout, DEFAULT_BROWSER_TIMEOUT) / MILLISECOND <= 0xffff_ffff
  }

  /** The browser hint in milliseconds and the expiry of the state. */
  method TimeoutState(timeout: int, ttl: int, now: Time) returns (r: Option<(nat, Time)>)
    ensures r.Some? <==> ValidDurations(timeout, ttl)
    ensures r.Some? ==> 1 <= r.value.0 <= 0xffff_ffff && r.value.1 == now + OrDefault(ttl, DEFAULT_CHALLENGE_TTL)
    ensures r.Some? && r.value.0 > 1 ==> r.value.0 * MILLISECOND <= OrDefault(timeout, DEFAULT_BROWSER_TIMEOUT)
    ensures r.Some? ==> OrDefault(timeout, DEFAULT_BROWSER_TIMEOUT) < (r.value.0 + 1) * MILLISECOND
    ensures r.Some? ==> r.value.1 > now
  {
    if timeout < 0 || ttl < 0 {
      return None;
    }
    var hint, lifetime := timeout, ttl;
    if hint == 0 {
      hint := DEFAULT_BROWSER_TIMEOUT;
    }
    if lifetime == 0 {
      lifetime := DEFAULT_CHALLENGE_TTL;
    }
    if lifetime < hint {
      return None;
    }
    var milliseconds := hint / MILLISECOND;
    if milliseconds == 0 {
      milliseconds := 1;
    }
    if milliseconds > 0xffff_ffff {
      return None;
    }
    return Some((milliseconds, now + lifetime));
  }

  /** The credential ids of an allow list as base64url text. */
  function AllowedTexts(allow: seq<Descriptor>): seq<string> {
    seq(|allow|, i requires 0 <= i < |allow| => Base64.Encode(allow[i].id))
  }

  /** Replaces the allowed credentials of a prf input by those of the ceremony. */
  function AttachAllowed(allow: seq<Descriptor>): Transform {
    (id, input) =>
      if id != "prf" then Some(input)
      else
        match PrfOf(InputValue(input))
        case None => None
        case Some(p) => Some(PrfIn(p.(allowCredentials := if allow == [] then None else Some(AllowedTexts(allow)))))
  }

  function KeepInput(): Transform { (id, input) => Some(input) }

  predicate RemoteAgrees(outside: Outside, operation: Operation, inputs: map<string, Input>,
                         registry: Option<Registry>, challenge: seq<byte>)
  {
    "remoteClientDataJSON" in inputs && CurrentRevision(registry, "remoteClientDataJSON").Some? ==>
      outside.remoteAgrees(operation, InputValue(inputs["remoteClientDataJSON"]), challenge)
  }

  ghost predicate AllCopy(inputs: map<string, Input>) { forall id :: id in inputs ==> Copies(inputs[id]) }

  method CloneInputs(inputs: map<string, Input>) returns (r: Option<map<string, Input>>)
    ensures r.Some? <==> AllCopy(inputs)
    ensures r.Some? ==> r.value == inputs
  {
    hide Copies;
    var out: map<string, Input> := map[];
    var pending := inputs.Keys;
    while pending != {}
      invariant pending <= inputs.Keys
      invariant forall id :: id in inputs ==> id in pending || id in out
      invariant forall id :: id in out ==> id in inputs && id !in pending && out[id] == inputs[id] && Copies(inputs[id])
      decreases |pending|
    {
      var id :| id in pending;
      var copy := CloneInput(inputs[id]);
      if copy.None? {
        return None;
      }
      out := out[id := copy.value];
      pending := pending - {id};
    }
    assert out == inputs;
    return Some(out);
  }

  /** The challenge in use: the caller's, or what the generator returns. */
  function ChosenChallenge(given: seq<byte>, generated: Option<seq<byte>>): Option<seq<byte>> {
    if given != [] then Some(given) else generated
  }

  // ----- Start: authentication -----

  datatype AuthenticationStart = AuthenticationStart(
    rpId: string, policy: OriginPolicy, allow: seq<Descriptor>, challenge: seq<byte>, generated: Option<seq<byte>>,
    uv: UserVerification, extensions: map<string, Input>, registry: Option<Registry>, rejectUnknown: bool,
    timeout: int, ttl: int, now: Time, expectedUser: seq<byte>)

  function UvOrPreferred(uv: UserVerification): UserVerification { if uv.UvUnset? then UvPreferred else uv }

  /** What start demands before it issues an authentication state. */
  ghost predicate AuthenticationStartable(outside: Outside, o: AuthenticationStart) {
    && ValidScope(outside, o.rpId, o.policy)
    && ValidDescriptors(o.allow)
    && ChosenChallenge(o.challenge, o.generated).Some?
    && ChosenChallenge(o.challenge, o.generated).value != []
    && KnownUv(UvOrPreferred(o.uv))
    && ValidDurations(o.timeout, o.ttl)
    && Preparable(Authentication, o.extensions, o.registry, o.rejectUnknown, AttachAllowed(o.allow))
    && var inputs := PreparedInputs(Authentication, o.extensions, o.registry, o.rejectUnknown, AttachAllowed(o.allow));
       && RemoteAgrees(outside, Authentication, inputs, o.registry, ChosenChallenge(o.challenge, o.generated).value)
       && LargeBlobContext(inputs, o.allow)
       && ("largeBlob" in inputs ==> CurrentRevision(o.registry, "largeBlob").Some?)
       && AllCopy(inputs)
  }

  method StartAuthentication(outside: Outside, o: AuthenticationStart)
    returns (r: Result<AuthenticationState, CeremonyError>)
    requires o.registry.Some? ==> ValidRegistry(o.registry.value)
    ensures r.Ok? <==> AuthenticationStartable(outside, o)
    ensures r == Err(GeneratorFailed) <==>
              && ValidScope(outside, o.rpId, o.policy) && ValidDescriptors(o.allow)
              && o.challenge == [] && o.generated.None?
    ensures r.Err? ==> r.error in {GeneratorFailed, InvalidConfiguration}
    ensures r.Ok? && o.now >= 0 ==> ValidAuthentication(outside, r.value)
    ensures r.Ok? ==> Freezes(r.value.requested.bindings, o.registry, r.value.requested.inputs.Keys)
    ensures r.Ok? ==> r.value.requested.inputs
                      == PreparedInputs(Authentication, o.extensions, o.registry, o.rejectUnknown,
                          AttachAllowed(o.allow))
    ensures r.Ok? ==>
              && r.value.rpId == o.rpId && r.value.policy == o.policy && r.value.allow == o.allow
              && r.value.expectedUser == o.expectedUser && r.value.uv == UvOrPreferred(o.uv)
              && Some(r.value.challenge) == ChosenChallenge(o.challenge, o.generated)
              && r.value.expiresAt == o.now + OrDefault(o.ttl, DEFAULT_CHALLENGE_TTL) > o.now
  {
    hide ValidRegistry, Freezes, PreparedInputs, AllCopy, WellBound, ValidIdentifier, LargeBlobContext, Preparable,
      RemoteAgrees, AttachAllowed;
    if !ValidScope(outside, o.rpId, o.policy) || !ValidDescriptors(o.allow) {
      return Err(InvalidConfiguration);
    }
    var challenge := o.challenge;
    if challenge == [] {
      if o.generated.None? {
        return Err(GeneratorFailed);
      }
      challenge := o.generated.value;
    }
    var uv := UvOrPreferred(o.uv);
    if !KnownUv(uv) {
      return Err(InvalidConfiguration);
    }
    var prepared := PrepareExtensionInputs(Authentication, o.extensions, o.registry, o.rejectUnknown,
        AttachAllowed(o.allow));
    if prepared.Err? || !RemoteAgrees(outside, Authentication, prepared.value.inputs, o.registry, challenge) {
      return Err(InvalidConfiguration);
    }
    StartEstablishesBindings(Authentication, o.extensions, o.registry, o.rejectUnknown, AttachAllowed(o.allow),
        prepared.value);
    var context := ValidateLargeBlobContext(prepared.value.inputs, o.allow);
    if !context || ("largeBlob" in prepared.value.inputs && CurrentRevision(o.registry, "largeBlob").None?) {
      return Err(InvalidConfiguration);
    }
    var inputs := CloneInputs(prepared.value.inputs);
    var times := TimeoutState(o.timeout, o.ttl, o.now);
    if inputs.None? || times.None? || challenge == [] {
      return Err(InvalidConfiguration);
    }
    return Ok(AuthenticationState(challenge, o.rpId, o.policy, uv, Requested(inputs.value, prepared.value.bindings),
                                  o.allow, o.expectedUser, times.value.1));
  }

  // ----- Start: registration -----

  /** The parameters of a supported type, in order. */
  function Supported(ps: seq<Parameter>): seq<Parameter> {
    if ps == [] then []
    else
      var front, last := Supported(ps[..|ps| - 1]), ps[|ps| - 1];
      if last.kind.PublicKeyType? then front + [last] else front
  }

  function DefaultParameters(): seq<Parameter> { [Parameter(PublicKeyType, ES256), Parameter(PublicKeyType, RS256)] }

  /** What the parameter filter returns; None where it refuses the list. */
  function FilteredParameters(ps: seq<Parameter>): Option<seq<Parameter>> {
    if ps == [] then Some(DefaultParameters())
    else if (exists i :: 0 <= i < |ps| && !ValidParameter(ps[i])) || Supported(ps) == [] then None
    else Some(Supported(ps))
  }

  method RegistrationParameters(ps: seq<Parameter>) returns (r: Option<seq<Parameter>>)
    ensures r == FilteredParameters(ps)
  {
    if |ps| == 0 {
      return Some(DefaultParameters());
    }
    var out: seq<Parameter> := [];
    for i := 0 to |ps|
      invariant forall k :: 0 <= k < i ==> ValidParameter(ps[k])
      invariant out == Supported(ps[..i])
    {
      if !ValidParameter(ps[i]) {
        return None;
      }
      assert ps[..i + 1][..i] == ps[..i];
      if ps[i].kind.PublicKeyType? {
        out := out + [ps[i]];
      }
    }
    assert ps[..|ps|] == ps;
    return if |out| == 0 then None else Some(out);
  }

  lemma {:induction false} SupportedAreSupported(ps: seq<Parameter>)
    requires forall i :: 0 <= i < |ps| ==> ValidParameter(ps[i])
    ensures forall p :: p in Supported(ps) ==> ValidParameter(p) && p.kind.PublicKeyType?
    ensures Supported(Supported(ps)) == Supported(ps)
  {
    if ps != [] {
      var front := ps[..|ps| - 1];
      SupportedAreSupported(front);
      if ps[|ps| - 1].kind.PublicKeyType? {
        assert Supported(ps)[..|Supported(ps)| - 1] == Supported(front);
      }
    }
  }

  /** Filtering again changes nothing, and what remains is never empty. */
  lemma FilterIdempotent(ps: seq<Parameter>)
    requires FilteredParameters(ps).Some?
    ensures FilteredParameters(FilteredParameters(ps).value) == FilteredParameters(ps)
    ensures FilteredParameters(ps).value != []
    ensures forall p :: p in FilteredParameters(ps).value ==> ValidParameter(p) && p.kind.PublicKeyType?
  {
    if ps == [] {
      var d := DefaultParameters();
      assert Supported(d[..1]) == d[..1] by { assert d[..1][..0] == []; }
      assert Supported(d) == d;
    } else {
      SupportedAreSupported(ps);
    }
  }

  function Algorithms(ps: seq<Parameter>): (r: seq<int>)
    ensures |r| == |ps| && forall i :: 0 <= i < |ps| ==> r[i] == ps[i].algorithm
  {
    seq(|ps|, i requires 0 <= i < |ps| => ps[i].algorithm)
  }

  /** Selection criteria; `known` tells whether attachment and resident key are unset or known. */
  datatype Selection = Selection(known: bool, uv: UserVerification)

  predicate ValidSelection(s: Option<Selection>) { s.Some? ==> s.value.known && !s.value.uv.UvOther? }

  function SelectionUv(s: Option<Selection>): UserVerification {
    if s.Some? && !s.value.uv.UvUnset? then s.value.uv else UvPreferred
  }

  datatype RegistrationStart = RegistrationStart(
    rpId: string, rpName: string, user: seq<byte>, userName: string, policy: OriginPolicy, conditional: bool,
    challenge: seq<byte>, generated: Option<seq<byte>>, parameters: seq<Parameter>, selection: Option<Selection>,
    conveyance: Conveyance, formats: seq<string>, exclude: seq<Descriptor>, extensions: map<string, Input>,
    registry: Option<Registry>, rejectUnknown: bool, timeout: int, ttl: int, now: Time)

  function ConveyanceOrNone(c: Conveyance): Conveyance { if c.ConveyanceUnset? then NoConveyance else c }

  /** What start demands before it issues a registration state. */
  ghost predicate RegistrationStartable(outside: Outside, o: RegistrationStart) {
    && o.rpName != "" && o.user != [] && o.userName != ""
    && ValidScope(outside, o.rpId, o.policy)
    && ValidSelection(o.selection)
    && FilteredParameters(o.parameters).Some?
    && ChosenChallenge(o.challenge, o.generated).Some?
    && ChosenChallenge(o.challenge, o.generated).value != []
    && KnownConveyance(ConveyanceOrNone(o.conveyance))
    && ValidDurations(o.timeout, o.ttl)
    && ValidDescriptors(o.exclude)
    && (forall i :: 0 <= i < |o.formats| ==> ValidIdentifier(o.formats[i]))
    && Preparable(Registration, o.extensions, o.registry, o.rejectUnknown, KeepInput())
    && var inputs := PreparedInputs(Registration, o.extensions, o.registry, o.rejectUnknown, KeepInput());
       && RemoteAgrees(outside, Registration, inputs, o.registry, ChosenChallenge(o.challenge, o.generated).value)
       && AllCopy(inputs)
  }

  method StartRegistration(outside: Outside, o: RegistrationStart)
    returns (r: Result<RegistrationState, CeremonyError>)
    requires o.registry.Some? ==> ValidRegistry(o.registry.value)
    ensures r.Ok? <==> RegistrationStartable(outside, o)
    ensures r.Ok? && o.now >= 0 ==> ValidRegistration(outside, r.value)
    ensures r.Ok? ==> Freezes(r.value.requested.bindings, o.registry, r.value.requested.inputs.Keys)
    ensures r.Ok? ==> r.value.requested.inputs
                      == PreparedInputs(Registration, o.extensions, o.registry, o.rejectUnknown, KeepInput())
    ensures r.Ok? ==>
              && r.value.rpId == o.rpId && r.value.policy == o.policy && r.value.user == o.user
              && r.value.conditional == o.conditional && r.value.uv == SelectionUv(o.selection)
              && r.value.conveyance == ConveyanceOrNone(o.conveyance)
              && Some(r.value.challenge) == ChosenChallenge(o.challenge, o.generated)
              && r.value.expiresAt == o.now + OrDefault(o.ttl, DEFAULT_CHALLENGE_TTL) > o.now
              && FilteredParameters(o.parameters).Some?
              && r.value.algorithms == Algorithms(FilteredParameters(o.parameters).value)
  {
    hide ValidRegistry, Freezes, PreparedInputs, AllCopy, WellBound, ValidIdentifier, FilteredParameters, Preparable,
      RemoteAgrees, KeepInput;
    if o.rpName == "" || o.user == [] || o.userName == "" || !ValidScope(outside, o.rpId, o.policy)
        || !ValidSelection(o.selection) {
      return Err(InvalidConfiguration);
    }
    var parameters := RegistrationParameters(o.parameters);
    if parameters.None? {
      return Err(InvalidConfiguration);
    }
    FilterIdempotent(o.parameters);
    var challenge := o.challenge;
    if challenge == [] {
      if o.generated.None? {
        return Err(GeneratorFailed);
      }
      challenge := o.generated.value;
    }
    var uv := SelectionUv(o.selection);
    if !KnownUv(uv) {
      return Err(InvalidConfiguration);
    }
    var prepared := PrepareExtensionInputs(Registration, o.extensions, o.registry, o.rejectUnknown, KeepInput());
    if prepared.Err? || !RemoteAgrees(outside, Registration, prepared.value.inputs, o.registry, challenge) {
      return Err(InvalidConfiguration);
    }
    StartEstablishesBindings(Registration, o.extensions, o.registry, o.rejectUnknown, KeepInput(), prepared.value);
    var inputs := CloneInputs(prepared.value.inputs);
    var conveyance := ConveyanceOrNone(o.conveyance);
    var times := TimeoutState(o.timeout, o.ttl, o.now);
    if inputs.None? || !KnownConveyance(conveyance) || times.None? || challenge == []
       || !ValidDescriptors(o.exclude) || exists i :: 0 <= i < |o.formats| && !ValidIdentifier(o.formats[i])
    {
      return Err(InvalidConfiguration);
    }
    return Ok(RegistrationState(challenge, o.rpId, o.policy, o.conditional, o.user, uv,
                                Requested(inputs.value, prepared.value.bindings), Algorithms(parameters.value),
                                conveyance, times.value.1));
  }

  // ----- Finish: shared checks -----

  /** Every requested identifier is bound as the registry in use binds it. */
  ghost predicate BindingsAgree(requested: Requested, registry: Option<Registry>) {
    forall id :: id in requested.inputs ==> RecordedRevision(requested.bindings, id) == CurrentRevision(registry, id)
  }

  predicate ClientOutputsOk(client: map<string, Value>) {
    |client| <= MAX_ENTRIES && forall id :: id in client ==> ValidIdentifier(id)
  }

  /** A bound remote client data input is the client data the browser returned. */
  predicate RemoteBound(requested: Requested, clientDataJson: string) {
    "remoteClientDataJSON" in requested.inputs
    && (exists i :: 0 <= i < |requested.bindings| && requested.bindings[i].id == "remoteClientDataJSON")
    ==> requested.inputs["remoteClientDataJSON"] == TextInput(clientDataJson)
  }

  // ----- The prf input between start and finish -----

  /** Attaching the ceremony's credentials to a stored prf input gives back the input start attached them to: the
      handler sees the same typed input at finish as at start. */
  lemma AttachedInputSurvivesStorage(allow: seq<Descriptor>, input: Input, attached: Input)
    requires AttachAllowed(allow)("prf", input) == Some(attached)
    ensures attached.PrfIn? && FirstsPresent(attached.prf)
    ensures AttachAllowed(allow)("prf", Restored(AfterStorage(InputValue(attached)))) == Some(attached)
  {
    hide AfterStorage, Restored;
    PrfOfHasFirsts(InputValue(input));
    PrfSurvivesStorage(attached.prf);
    InputBehindBoundary(AfterStorage(Prf(attached.prf)));
  }
}
