// Storage envelopes: a version, a kind and exactly one payload, within a size limit.
module Envelopes {
  import opened Base
  import opened Values
  import opened EncodedValues
  import opened ValueCodec
  import opened StoredInputs

  const ENVELOPE_VERSION := 1

  datatype EnvelopeKind =
    | RegistrationStateKind | AuthenticationStateKind | CredentialRecordKind | OtherKind(text: string)

  datatype Envelope<P> = Envelope(
    version: int, kind: EnvelopeKind, registration: Option<P>, authentication: Option<P>, record: Option<P>)

  /** The JSON text layer. */
  datatype TextLayer<!P> = TextLayer(render: Envelope<P> -> seq<byte>, parse: seq<byte> -> Option<Envelope<P>>)

  /** The text of an envelope is not empty and parses back to it. */
  ghost predicate RoundTrips<P>(text: TextLayer<P>, e: Envelope<P>) {
    text.render(e) != [] && text.parse(text.render(e)) == Some(e)
  }

  /** The payload member that a kind names. */
  function PayloadOf<P>(e: Envelope<P>, kind: EnvelopeKind): Option<P> {
    match kind
    case RegistrationStateKind => e.registration
    case AuthenticationStateKind => e.authentication
    case CredentialRecordKind => e.record
    case OtherKind(_) => None
  }

  function Count(present: seq<bool>): nat {
    if present == [] then 0 else Count(present[..|present| - 1]) + (if present[|present| - 1] then 1 else 0)
  }

  function Presence<P>(e: Envelope<P>): seq<bool> { [e.registration.Some?, e.authentication.Some?, e.record.Some?] }

  /** An envelope of a kind: the current version and the payload of that kind alone. */
  predicate WellFormed<P>(e: Envelope<P>, kind: EnvelopeKind) {
    && e.version == ENVELOPE_VERSION && e.kind == kind
    && Count(Presence(e)) == 1
    && (!kind.OtherKind? ==> PayloadOf(e, kind).Some?)
  }

  lemma CountOfThree(a: bool, b: bool, c: bool)
    ensures Count([a, b, c]) == (if a then 1 else 0) + (if b then 1 else 0) + (if c then 1 else 0)
  {
    assert [a, b, c][..2] == [a, b] && [a, b][..1] == [a] && [a][..0] == [];
    assert Count([a]) == Count([]) + (if a then 1 else 0);
    assert Count([a, b]) == Count([a]) + (if b then 1 else 0);
    assert Count([a, b, c]) == Count([a, b]) + (if c then 1 else 0);
  }

  /** A well-formed envelope of a stored kind carries that payload and neither of the others. */
  lemma OnePayload<P>(e: Envelope<P>, kind: EnvelopeKind)
    requires WellFormed(e, kind) && !kind.OtherKind?
    ensures e.registration.Some? <==> kind.RegistrationStateKind?
    ensures e.authentication.Some? <==> kind.AuthenticationStateKind?
    ensures e.record.Some? <==> kind.CredentialRecordKind?
  {
    CountOfThree(e.registration.Some?, e.authentication.Some?, e.record.Some?);
  }

  function MarshalEnvelope<P>(text: TextLayer<P>, e: Envelope<P>): Option<seq<byte>> {
    if |text.render(e)| > MAX_ENVELOPE_BYTES then None else Some(text.render(e))
  }

  /** Whether unmarshalling accepts a text as an envelope of a kind. */
  predicate Unmarshals<P>(text: TextLayer<P>, data: seq<byte>, kind: EnvelopeKind) {
    0 < |data| <= MAX_ENVELOPE_BYTES && text.parse(data).Some? && WellFormed(text.parse(data).value, kind)
  }

  /** Accepts exactly the texts within the limit that parse to a well-formed envelope of the expected kind. */
  method UnmarshalEnvelope<P>(text: TextLayer<P>, data: seq<byte>,
      expected: EnvelopeKind) returns (r: Option<Envelope<P>>)
    ensures r.Some? <==> Unmarshals(text, data, expected)
    ensures r.Some? ==> r == text.parse(data)
  {
    if |data| == 0 || |data| > MAX_ENVELOPE_BYTES {
      return None;
    }
    var parsed := text.parse(data);
    if parsed.None? || parsed.value.version != ENVELOPE_VERSION || parsed.value.kind != expected {
      return None;
    }
    var present, payloads := Presence(parsed.value), 0;
    for i := 0 to |present|
      invariant payloads == Count(present[..i])
    {
      assert present[..i + 1][..i] == present[..i];
      if present[i] {
        payloads := payloads + 1;
      }
    }
    assert present[..|present|] == present;
    if payloads != 1 || (!expected.OtherKind? && PayloadOf(parsed.value, expected).None?) {
      return None;
    }
    return parsed;
  }

  /** Unmarshalling accepts, for each stored kind, exactly the texts of 1 to 2^20 octets that parse to an envelope of
      version 1 and that kind with the payload of that kind alone. */
  lemma UnmarshalsExactly<P>(text: TextLayer<P>, data: seq<byte>)
    ensures Unmarshals(text, data, RegistrationStateKind) <==>
              1 <= |data| <= 1_048_576 &&
              exists p :: text.parse(data) == Some(Envelope(1, RegistrationStateKind, Some(p), None, None))
    ensures Unmarshals(text, data, AuthenticationStateKind) <==>
              1 <= |data| <= 1_048_576 &&
              exists p :: text.parse(data) == Some(Envelope(1, AuthenticationStateKind, None, Some(p), None))
    ensures Unmarshals(text, data, CredentialRecordKind) <==>
              1 <= |data| <= 1_048_576 &&
              exists p :: text.parse(data) == Some(Envelope(1, CredentialRecordKind, None, None, Some(p)))
  {
    if text.parse(data).Some? {
      WellFormedExactly(text.parse(data).value);
    }
  }

  lemma WellFormedExactly<P>(e: Envelope<P>)
    ensures WellFormed(e, RegistrationStateKind) <==>
              exists p :: e == Envelope(1, RegistrationStateKind, Some(p), None, None)
    ensures WellFormed(e, AuthenticationStateKind) <==>
              exists p :: e == Envelope(1, AuthenticationStateKind, None, Some(p), None)
    ensures WellFormed(e, CredentialRecordKind) <==>
              exists p :: e == Envelope(1, CredentialRecordKind, None, None, Some(p))
  {
    CountOfThree(e.registration.Some?, e.authentication.Some?, e.record.Some?);
    if WellFormed(e, RegistrationStateKind) {
      var p := e.registration.value;
      assert e == Envelope(1, RegistrationStateKind, Some(p), None, None);
    }
    if WellFormed(e, AuthenticationStateKind) {
      var p := e.authentication.value;
      assert e == Envelope(1, AuthenticationStateKind, None, Some(p), None);
    }
    if WellFormed(e, CredentialRecordKind) {
      var p := e.record.value;
      assert e == Envelope(1, CredentialRecordKind, None, None, Some(p));
    }
  }

  /** An envelope of any other version, kind or payload never unmarshals, although its text parses. */
  lemma OtherEnvelopesAreRefused<P>(text: TextLayer<P>, e: Envelope<P>, kind: EnvelopeKind)
    requires RoundTrips(text, e) && !kind.OtherKind?
    requires e.version != 1 || e.kind != kind || PayloadOf(e, kind).None? || Others(e, kind)
    ensures !Unmarshals(text, text.render(e), kind)
  {
    hide Count;
    UnmarshalsExactly(text, text.render(e));
  }

  /** A payload beside the one that the kind names. */
  predicate Others<P>(e: Envelope<P>, kind: EnvelopeKind) {
    || (e.registration.Some? && kind != RegistrationStateKind)
    || (e.authentication.Some? && kind != AuthenticationStateKind)
    || (e.record.Some? && kind != CredentialRecordKind)
  }

  /** What was marshalled for a kind unmarshals for that kind, to the same envelope, and for no other kind. */
  lemma MarshalledUnmarshals<P>(text: TextLayer<P>, e: Envelope<P>, kind: EnvelopeKind, other: EnvelopeKind)
    requires RoundTrips(text, e) && WellFormed(e, kind) && MarshalEnvelope(text, e).Some?
    ensures Unmarshals(text, MarshalEnvelope(text, e).value, other) <==> other == kind
    ensures text.parse(MarshalEnvelope(text, e).value) == Some(e)
  {
    hide Count;
  }

  // ----- Extension inputs in an envelope -----

  /** The envelope of a ceremony state, as far as its extension inputs go. */
  function StateEnvelope(kind: EnvelopeKind, stored: map<string, EncodedValue>): Envelope<map<string, EncodedValue>> {
    Envelope(ENVELOPE_VERSION, kind,
             if kind.RegistrationStateKind? then Some(stored) else None,
             if kind.AuthenticationStateKind? then Some(stored) else None, None)
  }

  predicate StateKind(kind: EnvelopeKind) { kind.RegistrationStateKind? || kind.AuthenticationStateKind? }

  /** The octets of the strings that stored inputs carry. */
  ghost function CarriedOctets(stored: map<string, EncodedValue>): nat {
    MembersSize(StoredBundle(stored), stored.Keys, Octets)
  }

  /** The text of an envelope is at least as long as the strings it carries. */
  ghost predicate CarriesStrings(text: TextLayer<map<string, EncodedValue>>, kind: EnvelopeKind,
                                 stored: map<string, EncodedValue>)
  {
    CarriedOctets(stored) <= |text.render(StateEnvelope(kind, stored))|
  }

  /** Inputs of a registration or authentication state that marshals are unmarshalled, as that kind of state only,
      and read back as their canonical form. */
  lemma MarshalledInputsReadBack(text: TextLayer<map<string, EncodedValue>>, kind: EnvelopeKind,
                                 inputs: map<string, Input>)
    requires StateKind(kind) && Writable(inputs)
    requires RoundTrips(text, StateEnvelope(kind, EncodedInputs(inputs)))
    requires CarriesStrings(text, kind, EncodedInputs(inputs))
    requires MarshalEnvelope(text, StateEnvelope(kind, EncodedInputs(inputs))).Some?
    ensures var data := MarshalEnvelope(text, StateEnvelope(kind, EncodedInputs(inputs))).value;
            && (forall other :: Unmarshals(text, data, other) <==> other == kind)
            && text.parse(data).Some?
            && PayloadOf(text.parse(data).value, kind) == Some(EncodedInputs(inputs))
    ensures ReadableInputs(EncodedInputs(inputs))
    ensures DecodedInputs(EncodedInputs(inputs)) == map id | id in inputs ::
              Restored(Canon(Plain(InputValue(inputs[id]))))
  {
    hide Writable, ReadableInputs, EncodedInputs, DecodedInputs, MembersSize, Canon, Plain, Restored, InputValue;
    var stored := EncodedInputs(inputs);
    var e := StateEnvelope(kind, stored);
    CountOfThree(e.registration.Some?, e.authentication.Some?, false);
    forall other ensures Unmarshals(text, MarshalEnvelope(text, e).value, other) <==> other == kind {
      MarshalledUnmarshals(text, e, kind, other);
    }
    MarshalImpliesUnmarshal(inputs, |text.render(e)|);
    WrittenReadsBack(inputs);
  }

  // ----- Such text layers exist -----

  function Filler(n: nat): seq<byte> { seq(n, i => 0) }

  /** A layer that knows one envelope only, with a text of a given length. */
  function LayerFor<P>(e: Envelope<P>, n: nat): TextLayer<P> { TextLayer(other => Filler(n), data => Some(e)) }

  /** For all writable inputs whose strings fit an envelope, some text layer carries them and marshals. */
  lemma SomeLayerMarshals(kind: EnvelopeKind, inputs: map<string, Input>) returns (
      text: TextLayer<map<string, EncodedValue>>)
    requires StateKind(kind) && Writable(inputs) && CarriedOctets(EncodedInputs(inputs)) <= MAX_ENVELOPE_BYTES
    ensures RoundTrips(text, StateEnvelope(kind, EncodedInputs(inputs)))
    ensures CarriesStrings(text, kind, EncodedInputs(inputs))
    ensures MarshalEnvelope(text, StateEnvelope(kind, EncodedInputs(inputs))).Some?
  {
    hide Writable, EncodedInputs, MembersSize;
    var stored := EncodedInputs(inputs);
    text := LayerFor(StateEnvelope(kind, stored), if CarriedOctets(stored) == 0 then 1 else CarriedOctets(stored));
  }
}
