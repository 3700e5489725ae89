// A reusable relying party configuration: what New fixes, and that finish never rejects a
// state which the same object started.
module RelyingParty {
  import opened Base
  import opened Values
  import opened InputHandlers
  import opened Extensions
  import opened Ceremonies

  datatype CounterPolicy = CounterPolicy(rejectCloneRisk: bool, updateOnCloneRisk: bool)

  /** Injected decoders, verifiers and policies that must be present. */
  datatype Dependencies = Dependencies(
    attestationDecoder: bool, keyDecoder: bool, attestationRegistry: bool, extensionDecoder: bool,
    signatureVerifier: bool, algorithmPolicy: bool, trustPolicy: bool, generator: bool)

  predicate AllPresent(d: Dependencies) {
    && d.attestationDecoder && d.keyDecoder && d.attestationRegistry && d.extensionDecoder
    && d.signatureVerifier && d.algorithmPolicy && d.trustPolicy && d.generator
  }

  datatype Config = Config(
    rpId: string, rpName: string, policy: OriginPolicy, parameters: seq<Parameter>, dependencies: Dependencies,
    accepts: int -> bool, registry: Option<Registry>, selection: Option<Selection>, conveyance: Conveyance,
    formats: seq<string>, uv: UserVerification, counter: CounterPolicy,
    rejectUnknownAtRegistration: bool, rejectUnknownAtAuthentication: bool, timeout: int, ttl: int)

  datatype Party = Party(config: Config, algorithms: seq<int>)

  /** A configuration after defaults, as New leaves it. */
  predicate ValidConfig(outside: Outside, c: Config) {
    && c.rpName != "" && ValidScope(outside, c.rpId, c.policy)
    && ValidDurations(c.timeout, c.ttl)
    && AllPresent(c.dependencies)
    && ValidSelection(c.selection)
    && KnownUv(c.uv)
    && KnownConveyance(c.conveyance)
    && (forall i :: 0 <= i < |c.formats| ==> ValidIdentifier(c.formats[i]))
    && !(c.counter.rejectCloneRisk && c.counter.updateOnCloneRisk)
    && (forall i :: 0 <= i < |c.parameters| ==> c.accepts(c.parameters[i].algorithm))
  }

  /** The configuration with every default filled in. */
  function Completed(c: Config, parameters: seq<Parameter>): Config {
    c.(parameters := parameters,
       timeout := OrDefault(c.timeout, DEFAULT_BROWSER_TIMEOUT),
       ttl := OrDefault(c.ttl, DEFAULT_CHALLENGE_TTL),
       conveyance := ConveyanceOrNone(c.conveyance),
       uv := UvOrPreferred(c.uv),
       selection := if c.selection.Some? && c.selection.value.uv.UvUnset?
         then Some(c.selection.value.(uv := UvPreferred)) else c.selection)
  }

  /** A party as New returns it. */
  ghost predicate Ready(outside: Outside, p: Party) {
    && ValidConfig(outside, p.config)
    && FilteredParameters(p.config.parameters) == Some(p.config.parameters)
    && p.algorithms == Algorithms(p.config.parameters)
    && p.config.timeout != 0 && p.config.ttl != 0
    && (p.config.registry.Some? ==> ValidRegistry(p.config.registry.value))
  }

  method New(outside: Outside, given: Config) returns (r: Result<Party, CeremonyError>)
    requires given.registry.Some? ==> ValidRegistry(given.registry.value)
    ensures r.Ok? <==> && FilteredParameters(given.parameters).Some?
                       && ValidConfig(outside, Completed(given, FilteredParameters(given.parameters).value))
    ensures r.Ok? ==> Ready(outside, r.value)
    ensures r.Ok? ==> r.value.config == Completed(given, FilteredParameters(given.parameters).value)
    ensures r.Ok? ==> |r.value.algorithms| == |r.value.config.parameters|
    ensures r.Ok? ==> forall i :: 0 <= i < |r.value.algorithms| ==>
                        r.value.algorithms[i] == r.value.config.parameters[i].algorithm
  {
    hide FilteredParameters, ValidConfig, ValidRegistry;
    var config := given;
    var parameters := RegistrationParameters(given.parameters);
    if parameters.None? {
      return Err(InvalidConfiguration);
    }
    FilterIdempotent(given.parameters);
    config := config.(parameters := parameters.value);
    if config.timeout == 0 {
      config := config.(timeout := DEFAULT_BROWSER_TIMEOUT);
    }
    if config.ttl == 0 {
      config := config.(ttl := DEFAULT_CHALLENGE_TTL);
    }
    if config.conveyance.ConveyanceUnset? {
      config := config.(conveyance := NoConveyance);
    }
    if config.uv.UvUnset? {
      config := config.(uv := UvPreferred);
    }
    if config.selection.Some? && config.selection.value.uv.UvUnset? {
      config := config.(selection := Some(config.selection.value.(uv := UvPreferred)));
    }
    if !ValidConfig(outside, config) {
      return Err(InvalidConfiguration);
    }
    return Ok(Party(config, Algorithms(parameters.value)));
  }

  // ----- Start -----

  datatype RegistrationRequest = RegistrationRequest(
    user: seq<byte>, userName: string, exclude: seq<Descriptor>, extensions: map<string, Input>, conditional: bool)

  datatype AuthenticationRequest = AuthenticationRequest(
    allow: seq<Descriptor>, expectedUser: seq<byte>, extensions: map<string, Input>)

  function RegistrationOptions(p: Party, q: RegistrationRequest, generated: Option<seq<byte>>,
      now: Time): RegistrationStart {
    var c := p.config;
    RegistrationStart(c.rpId, c.rpName, q.user, q.userName, c.policy, q.conditional, [], generated, c.parameters,
                      c.selection, c.conveyance, c.formats, q.exclude, q.extensions, c.registry,
                      c.rejectUnknownAtRegistration, c.timeout, c.ttl, now)
  }

  function AuthenticationOptions(p: Party, q: AuthenticationRequest, generated: Option<seq<byte>>,
      now: Time): AuthenticationStart {
    var c := p.config;
    AuthenticationStart(c.rpId, c.policy, q.allow, [], generated, c.uv, q.extensions, c.registry,
                        c.rejectUnknownAtAuthentication, c.timeout, c.ttl, now, q.expectedUser)
  }

  // ----- Finish -----

  predicate MatchesOrigin(p: Party, rpId: string, policy: OriginPolicy) {
    && rpId == p.config.rpId
    && policy.allowedOrigins == p.config.policy.allowedOrigins
    && policy.allowedTopOrigins == p.config.policy.allowedTopOrigins
    && policy.allowRelatedOrigins == p.config.policy.allowRelatedOrigins
    && policy.allowCrossOriginWithoutTopOrigin == p.config.policy.allowCrossOriginWithoutTopOrigin
  }

  /** The configuration check that precedes registration verification. */
  predicate RegistrationAgrees(p: Party, s: RegistrationState) {
    && MatchesOrigin(p, s.rpId, s.policy)
    && s.uv == SelectionUv(p.config.selection)
    && s.algorithms == p.algorithms
    && s.conveyance == p.config.conveyance
  }

  /** The configuration check that precedes authentication verification. */
  predicate AuthenticationAgrees(p: Party, s: AuthenticationState) {
    MatchesOrigin(p, s.rpId, s.policy) && s.uv == p.config.uv
  }

  /** Every credential a registration may produce has an algorithm that authentication accepts. */
  ghost predicate AlgorithmsAccepted(p: Party) {
    forall a :: a in p.algorithms ==> p.config.accepts(a)
  }

  /** A registration state that the party issues for a request: it will agree with the party, it is valid, its inputs
      are the prepared ones and its bindings those of the party's registry. */
  ghost predicate RegistrationIssued(outside: Outside, p: Party, q: RegistrationRequest, generated: Option<seq<byte>>,
                                     now: Time, s: RegistrationState)
  {
    && RegistrationStartable(outside, RegistrationOptions(p, q, generated, now))
    && RegistrationAgrees(p, s) && AlgorithmsAccepted(p)
    && (now >= 0 ==> ValidRegistration(outside, s))
    && Freezes(s.requested.bindings, p.config.registry, s.requested.inputs.Keys)
    && s.requested.inputs == PreparedInputs(Registration, q.extensions, p.config.registry,
                                            p.config.rejectUnknownAtRegistration, KeepInput())
    && s.user == q.user && Some(s.challenge) == generated && s.expiresAt == now + p.config.ttl
  }

  method PartyStartRegistration(outside: Outside, p: Party, q: RegistrationRequest, generated: Option<seq<byte>>,
      now: Time)
    returns (r: Result<RegistrationState, CeremonyError>)
    requires Ready(outside, p)
    ensures r.Ok? <==> RegistrationStartable(outside, RegistrationOptions(p, q, generated, now))
    ensures r.Ok? ==> RegistrationIssued(outside, p, q, generated, now, r.value)
    ensures r.Ok? ==> r.value.user == q.user && r.value.conditional == q.conditional
                      && Some(r.value.challenge) == generated && r.value.expiresAt == now + p.config.ttl
    ensures r.Ok? ==> forall i :: 0 <= i < |p.algorithms| ==> p.config.accepts(p.algorithms[i])
  {
    hide ValidRegistration, Freezes, FilteredParameters, ValidRegistry, ValidIdentifier, PreparedInputs, Preparable,
      AllCopy, RemoteAgrees;
    r := StartRegistration(outside, RegistrationOptions(p, q, generated, now));
  }

  /** An authentication state that the party issues for a request. */
  ghost predicate AuthenticationIssued(outside: Outside, p: Party, q: AuthenticationRequest,
                                       generated: Option<seq<byte>>, now: Time, s: AuthenticationState)
  {
    && AuthenticationStartable(outside, AuthenticationOptions(p, q, generated, now))
    && AuthenticationAgrees(p, s)
    && (now >= 0 ==> ValidAuthentication(outside, s))
    && Freezes(s.requested.bindings, p.config.registry, s.requested.inputs.Keys)
    && s.requested.inputs == PreparedInputs(Authentication, q.extensions, p.config.registry,
                                            p.config.rejectUnknownAtAuthentication, AttachAllowed(q.allow))
    && s.allow == q.allow && s.expectedUser == q.expectedUser
    && Some(s.challenge) == generated && s.expiresAt == now + p.config.ttl
  }

  method PartyStartAuthentication(outside: Outside, p: Party, q: AuthenticationRequest, generated: Option<seq<byte>>,
      now: Time)
    returns (r: Result<AuthenticationState, CeremonyError>)
    requires Ready(outside, p)
    ensures r.Ok? <==> AuthenticationStartable(outside, AuthenticationOptions(p, q, generated, now))
    ensures r.Ok? ==> AuthenticationIssued(outside, p, q, generated, now, r.value)
    ensures r.Ok? ==> r.value.allow == q.allow && r.value.expectedUser == q.expectedUser
                      && Some(r.value.challenge) == generated && r.value.expiresAt == now + p.config.ttl
  {
    hide ValidAuthentication, Freezes, FilteredParameters, ValidRegistry, ValidIdentifier, PreparedInputs, Preparable,
      AllCopy, RemoteAgrees, LargeBlobContext;
    r := StartAuthentication(outside, AuthenticationOptions(p, q, generated, now));
  }

  /** Bindings frozen by a party pass the binding check at the same party's finish. */
  lemma OwnStatesPassBindingCheck(p: Party, requested: Requested)
    requires Freezes(requested.bindings, p.config.registry, requested.inputs.Keys)
    ensures forall id :: id in requested.inputs ==>
              RecordedRevision(requested.bindings, id) == CurrentRevision(p.config.registry, id)
  {
    FinishAcceptsExactly(requested.inputs, requested.bindings, p.config.registry, p.config.registry);
  }

  // ----- An example party -----

  function ExampleOutside(): Outside {
    Outside(policy => true, (rpId, policy) => true, (operation, value, challenge) => true)
  }

  /** A party that accepts ES256 keys, no extensions, and no clone risk. */
  function ExampleParty(): Party {
    Party(Config("r", "R", OriginPolicy([], [], false, false), [Parameter(PublicKeyType, ES256)],
                 Dependencies(true, true, true, true, true, true, true, true), a => true, None, None, NoConveyance, [],
                 UvPreferred, CounterPolicy(true, false), true, true, DEFAULT_BROWSER_TIMEOUT, DEFAULT_CHALLENGE_TTL),
          [ES256])
  }

  lemma ExampleIsReady()
    ensures Ready(ExampleOutside(), ExampleParty())
  {
    var parameters := ExampleParty().config.parameters;
    assert parameters[..0] == [];
    assert Supported(parameters) == parameters;
  }
}
