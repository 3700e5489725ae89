// The validity rules for identifiers, bindings, records, states and configurations in terms of raw fields and literal
// limits.
module StateFacts {
  import opened Base
  import opened Values
  import opened Identifiers
  import opened AuthenticatorData
  import opened InputHandlers
  import opened Extensions
  import opened Ceremonies
  import opened Credentials
  import opened RelyingParty

  // ----- Identifiers and their order -----

  /** An identifier has 1 to 32 characters, each an exclamation mark or between a hash sign and a tilde, without the
      backslash. */
  lemma IdentifierExactly(id: string)
    ensures ValidIdentifier(id) <==>
              1 <= |id| <= 32 && forall c :: c in id ==> c == '!' || '#' <= c <= '[' || ']' <= c <= '~'
  {
    if ValidIdentifier(id) {
      forall c | c in id ensures c == '!' || '#' <= c <= '[' || ']' <= c <= '~' {
        var i :| 0 <= i < |id| && id[i] == c;
      }
    }
    assert forall i :: 0 <= i < |id| ==> id[i] in id;
  }

  /** One identifier comes before another where they first differ: it ends there, or has the smaller character. */
  lemma {:induction false} BeforeExactly(a: string, b: string)
    ensures Before(a, b) <==>
              exists n: nat :: n <= |a| && n < |b| && a[..n] == b[..n] && (n == |a| || a[n] < b[n])
  {
    if Before(a, b) {
      var n := Difference(a, b);
    }
    if n: nat :| n <= |a| && n < |b| && a[..n] == b[..n] && (n == |a| || a[n] < b[n]) { DiffersBefore(a, b, n); }
  }

  lemma {:induction false} Difference(a: string, b: string) returns (n: nat)
    requires Before(a, b)
    ensures n <= |a| && n < |b| && a[..n] == b[..n] && (n == |a| || a[n] < b[n])
  {
    if a == "" || a[0] < b[0] {
      n := 0;
    } else {
      var m := Difference(a[1..], b[1..]);
      n := m + 1;
      assert a[..n] == [a[0]] + a[1..][..m] && b[..n] == [b[0]] + b[1..][..m];
    }
  }

  lemma {:induction false} DiffersBefore(a: string, b: string, n: nat)
    requires n <= |a| && n < |b| && a[..n] == b[..n] && (n == |a| || a[n] < b[n])
    ensures Before(a, b)
  {
    if n > 0 {
      assert a[0] == a[..n][0] == b[..n][0] == b[0];
      assert a[1..][..n - 1] == a[..n][1..] && b[1..][..n - 1] == b[..n][1..];
      DiffersBefore(a[1..], b[1..], n - 1);
    }
  }

  // ----- Extension bindings -----

  /** The reserved identifiers and the one revision that each may be bound with. */
  lemma ReservedExactly(id: string, revision: string)
    ensures BuiltInRevision(id) == Some(revision) <==>
              || (revision == "webauthn-3-20260825"
                  && id in ["appid", "appidExclude", "uvm", "credProps", "largeBlob", "prf"])
              || (revision == "webauthn-ed-20260730" && id == "remoteClientDataJSON")
  {}

  /** An entry can be registered exactly under a well-formed identifier and revision, the latter not free for a
      reserved identifier. */
  lemma EntryExactly(e: Entry)
    ensures ValidEntry(e) <==>
              && ValidIdentifier(e.id) && ValidIdentifier(e.handler.revision)
              && (e.id in ["appid", "appidExclude", "uvm", "credProps", "largeBlob", "prf"] ==>
                    e.handler.revision == "webauthn-3-20260825")
              && (e.id == "remoteClientDataJSON" ==> e.handler.revision == "webauthn-ed-20260730")
  {
    hide ValidIdentifier;
  }

  /** Stored inputs and bindings are valid exactly when there are at most 64 of each, all identifiers and revisions are
      well formed, the bindings are of requested identifiers in strictly increasing order, and every requested reserved
      identifier is bound with its own revision. */
  lemma RequestedExactly(r: Requested)
    ensures ValidRequested(r) <==>
              && |r.inputs| <= 64 && |r.bindings| <= 64
              && (forall id :: id in r.inputs ==> ValidIdentifier(id))
              && (forall b :: b in r.bindings ==> ValidIdentifier(b.revision) && b.id in r.inputs)
              && (forall i, j :: 0 <= i < j < |r.bindings| ==> Before(r.bindings[i].id, r.bindings[j].id))
              && (forall id :: id in r.inputs ==>
                    && (id in ["appid", "appidExclude", "uvm", "credProps", "largeBlob", "prf"] ==>
                          Binding(id, "webauthn-3-20260825") in r.bindings)
                    && (id == "remoteClientDataJSON" ==> Binding(id, "webauthn-ed-20260730") in r.bindings))
  {
    hide ValidIdentifier, Before;
    assert (forall i :: 0 <= i < |r.bindings| ==> ValidBinding(r.bindings[i]) && r.bindings[i].id in r.inputs) <==>
             forall b :: b in r.bindings ==> ValidBinding(b) && b.id in r.inputs;
  }

  // ----- Records -----

  /** A stored record is valid exactly when it is a public key credential with an id, an owner and a relying party, a
      key of 1 to 65536 octets with a 32-bit algorithm other than 0, a backup state only where eligible, and a known
      attestation type and attachment. */
  lemma RecordExactly(c: CredentialRecord)
    ensures ValidRecord(c) <==>
              && c.kind == PublicKeyType && c.id != [] && c.user != [] && c.rpId != ""
              && 1 <= |c.key.raw| <= 65536
              && -2147483648 <= c.key.algorithm < 2147483648 && c.key.algorithm != 0
              && (c.backupEligible || !c.backedUp)
              && c.attachment in {NoAttachment, Platform, CrossPlatform}
              && c.attestation in {NoneType, SelfType, BasicType, AttCaType, AnonymizationCaType, UncertainType}
  {}

  // ----- States -----

  lemma AuthenticationStateExactly(outside: Outside, s: AuthenticationState)
    ensures ValidAuthentication(outside, s) <==>
              && s.challenge != [] && s.rpId != "" && s.expiresAt != 0
              && outside.validPolicy(s.policy) && outside.scoped(s.rpId, s.policy)
              && s.uv in {UvRequired, UvPreferred, UvDiscouraged}
              && (forall d :: d in s.allow ==> d.kind == PublicKeyType && d.id != [])
              && ValidRequested(s.requested)
              && LargeBlobContext(s.requested.inputs, s.allow)
  {
    hide ValidRequested, LargeBlobContext;
    assert ValidDescriptors(s.allow) <==> forall d :: d in s.allow ==> ValidDescriptor(d);
  }

  lemma RegistrationStateExactly(outside: Outside, s: RegistrationState)
    ensures ValidRegistration(outside, s) <==>
              && [] !in [s.challenge, s.user] && s.rpId != "" && s.expiresAt != 0
              && outside.validPolicy(s.policy) && outside.scoped(s.rpId, s.policy)
              && s.algorithms != [] && (forall a :: a in s.algorithms ==> -2147483648 <= a < 2147483648)
              && s.conveyance in {NoConveyance, Indirect, Direct, Enterprise}
              && s.uv in {UvRequired, UvPreferred, UvDiscouraged}
              && ValidRequested(s.requested)
  {
    hide ValidRequested;
    assert (forall i :: 0 <= i < |s.algorithms| ==> ValidAlgorithm(s.algorithms[i])) <==>
             forall a :: a in s.algorithms ==> ValidAlgorithm(a);
  }

  /** A largeBlob input of a valid state can be copied and is a permitted authentication input: it names no support
      level and not both a read and a write, and it writes only where exactly one credential is allowed. */
  lemma LargeBlobRuleExactly(inputs: map<string, Input>, allow: seq<Descriptor>)
    ensures LargeBlobContext(inputs, allow) <==>
              ("largeBlob" in inputs ==>
                 && Copies(inputs["largeBlob"])
                 && var r := LargeBlobOf(InputValue(inputs["largeBlob"]));
                    && r.Some? && !r.value.hasSupport && !(r.value.hasRead && r.value.hasWrite)
                    && (r.value.input.write.Some? ==> |allow| == 1))
  {
    hide Copies, LargeBlobOf;
  }

  // ----- Configurations -----

  /** Durations in nanoseconds: neither negative, the state outlives the browser hint with defaults of ten and five
      minutes, and the hint has at most 32 bits of milliseconds. */
  lemma DurationsExactly(timeout: int, ttl: int)
    ensures ValidDurations(timeout, ttl) <==>
              && timeout >= 0 && ttl >= 0
              && (if timeout == 0 then 300_000_000_000 else timeout) <= (if ttl == 0 then 600_000_000_000 else ttl)
              && (if timeout == 0 then 300_000_000_000 else timeout) < 4294967296 * 1_000_000
  {}

  lemma ConfigurationExactly(outside: Outside, c: Config)
    ensures ValidConfig(outside, c) <==>
              && c.rpName != "" && c.rpId != "" && outside.validPolicy(c.policy) && outside.scoped(c.rpId, c.policy)
              && ValidDurations(c.timeout, c.ttl)
              && c.dependencies == Dependencies(true, true, true, true, true, true, true, true)
              && (c.selection.Some? ==> c.selection.value.known && !c.selection.value.uv.UvOther?)
              && c.uv in {UvRequired, UvPreferred, UvDiscouraged}
              && c.conveyance in {NoConveyance, Indirect, Direct, Enterprise}
              && (forall f :: f in c.formats ==> ValidIdentifier(f))
              && c.counter != CounterPolicy(true, true)
              && (forall p :: p in c.parameters ==> c.accepts(p.algorithm))
  {
    hide ValidDurations, ValidIdentifier;
    assert (forall i :: 0 <= i < |c.formats| ==> ValidIdentifier(c.formats[i])) <==>
             forall f :: f in c.formats ==> ValidIdentifier(f);
    assert (forall i :: 0 <= i < |c.parameters| ==> c.accepts(c.parameters[i].algorithm)) <==>
             forall p :: p in c.parameters ==> c.accepts(p.algorithm);
  }

  /** What New fills in where the caller left a choice open. */
  lemma DefaultsExactly(given: Config, parameters: seq<Parameter>)
    ensures Completed(given, parameters) ==
              given.(parameters := parameters,
                     timeout := if given.timeout != 0 then given.timeout else 300_000_000_000,
                     ttl := if given.ttl != 0 then given.ttl else 600_000_000_000,
                     conveyance := if given.conveyance == ConveyanceUnset then NoConveyance else given.conveyance,
                     uv := if given.uv == UvUnset then UvPreferred else given.uv,
                     selection := match given.selection
                                  case Some(Selection(known, UvUnset)) => Some(Selection(known, UvPreferred))
                                  case other => other)
  {}

  /** The parameter filter keeps the order, drops other types, refuses unset types and wide algorithms, and puts ES256
      and RS256 in place of an empty list. */
  lemma ParametersExactly(ps: seq<Parameter>)
    ensures ps == [] ==> FilteredParameters(ps) == Some([Parameter(PublicKeyType, -7), Parameter(PublicKeyType, -257)])
    ensures ps != [] ==>
              (FilteredParameters(ps).Some? <==>
                 && (forall p :: p in ps ==> p.kind != TypeUnset && -2147483648 <= p.algorithm < 2147483648)
                 && exists p :: p in ps && p.kind == PublicKeyType)
  {
    if ps != [] {
      SupportedMembers(ps);
      if exists i :: 0 <= i < |ps| && !ValidParameter(ps[i]) {
        var i :| 0 <= i < |ps| && !ValidParameter(ps[i]);
        assert ps[i] in ps;
      }
    }
  }

  lemma {:induction false} SupportedMembers(ps: seq<Parameter>)
    ensures forall p :: p in Supported(ps) <==> p in ps && p.kind == PublicKeyType
    ensures Supported(ps) == [] <==> forall p :: p in ps ==> p.kind != PublicKeyType
  {
    if ps != [] {
      var front, last := ps[..|ps| - 1], ps[|ps| - 1];
      SupportedMembers(front);
      assert ps == front + [last];
    }
  }

  // ----- Authenticator data -----

  /** Authenticator data octet by octet: a 32-octet hash, the flags, a 32-bit counter, then either attested data, whose
      credential id has 1 to 1023 octets after a 16-octet AAGUID and a 16-bit length, or the extensions. */
  lemma AuthenticatorDataLayout(p: Parsed)
    ensures InRange(p) <==>
              && |p.rpIdHash| == 32 && !Bit(p.flags, 0x02) && !Bit(p.flags, 0x20) && p.signCount <= 4294967295
              && (p.attested.Some? <==> Bit(p.flags, 0x40))
              && match p.attested
                 case None => p.extensionData != [] <==> Bit(p.flags, 0x80)
                 case Some(Attested(aaguid, id, tail)) =>
                   |aaguid| == 16 && 1 <= |id| <= 1023 && tail != [] && p.extensionData == []
    ensures InRange(p) ==> PrintHeader(p) == p.rpIdHash + [p.flags] + LongWord(p.signCount)
    ensures InRange(p) ==>
              PrintTail(p) == match p.attested
                              case None => p.extensionData
                              case Some(Attested(aaguid, id, tail)) => aaguid + Word(|id|) + id + tail
  {
    hide PrintBE;
    if InRange(p) {
      LongWordIsPrinted(p.signCount);
      if p.attested.Some? { WordIsPrinted(|p.attested.value.id|); }
    }
  }

  // ----- Counters and updates -----

  /** Both counters zero, the new one ahead, or a clone risk. */
  lemma CounterExactly(stored: nat, asserted: nat)
    ensures CompareCounters(stored, asserted) == Unsupported <==> stored == asserted == 0
    ensures CompareCounters(stored, asserted) == Incremented <==> stored < asserted
    ensures CompareCounters(stored, asserted) == CloneRisk <==> asserted <= stored && stored != 0
  {}

  /** The record after an assertion: the larger counter, or the asserted one where clone risks are to be stored; the
      asserted backup state; user verification once it was shown and authorized; and the last known attachment. */
  lemma NextRecordExactly(c: CredentialRecord, a: Assertion)
    ensures NextRecord(c, a) ==
              c.(signCount := if a.updateOnCloneRisk || c.signCount <= a.signCount then a.signCount else c.signCount,
                 backedUp := a.backedUp,
                 uvInitialized := c.uvInitialized || (a.userVerified && a.uvAuthorized),
                 attachment := match a.attachment
                               case Platform => Platform
                               case CrossPlatform => CrossPlatform
                               case _ => c.attachment)
  {}

  // ----- Starting a ceremony -----

  /** What an authentication start demands, with the inputs that it will keep. */
  lemma AuthenticationStartExactly(outside: Outside, o: AuthenticationStart)
    ensures AuthenticationStartable(outside, o) <==>
              && o.rpId != "" && outside.validPolicy(o.policy) && outside.scoped(o.rpId, o.policy)
              && (forall d :: d in o.allow ==> d.kind == PublicKeyType && d.id != [])
              && (o.challenge != [] || (o.generated.Some? && o.generated.value != []))
              && o.uv in {UvUnset, UvRequired, UvPreferred, UvDiscouraged}
              && ValidDurations(o.timeout, o.ttl)
              && Preparable(Authentication, o.extensions, o.registry, o.rejectUnknown, AttachAllowed(o.allow))
              && var inputs := PreparedInputs(Authentication, o.extensions, o.registry, o.rejectUnknown,
                                              AttachAllowed(o.allow));
                 && (forall id :: id in inputs ==> Copies(inputs[id]))
                 && LargeBlobContext(inputs, o.allow)
                 && ("largeBlob" in inputs ==> o.registry.Some? && "largeBlob" in o.registry.value)
                 && ("remoteClientDataJSON" in inputs && o.registry.Some?
                     && "remoteClientDataJSON" in o.registry.value ==>
                       outside.remoteAgrees(Authentication, InputValue(inputs["remoteClientDataJSON"]),
                                            if o.challenge != [] then o.challenge else o.generated.value))
  {
    hide ValidDurations, Preparable, PreparedInputs, LargeBlobContext, Copies, AttachAllowed;
    assert ValidDescriptors(o.allow) <==> forall d :: d in o.allow ==> ValidDescriptor(d);
  }

  lemma RegistrationStartExactly(outside: Outside, o: RegistrationStart)
    ensures RegistrationStartable(outside, o) <==>
              && "" !in [o.rpName, o.userName, o.rpId] && o.user != []
              && outside.validPolicy(o.policy) && outside.scoped(o.rpId, o.policy)
              && (o.selection.Some? ==> o.selection.value.known && !o.selection.value.uv.UvOther?)
              && FilteredParameters(o.parameters).Some?
              && (o.challenge != [] || (o.generated.Some? && o.generated.value != []))
              && o.conveyance in {ConveyanceUnset, NoConveyance, Indirect, Direct, Enterprise}
              && ValidDurations(o.timeout, o.ttl)
              && (forall d :: d in o.exclude ==> d.kind == PublicKeyType && d.id != [])
              && (forall f :: f in o.formats ==> ValidIdentifier(f))
              && Preparable(Registration, o.extensions, o.registry, o.rejectUnknown, KeepInput())
              && var inputs := PreparedInputs(Registration, o.extensions, o.registry, o.rejectUnknown, KeepInput());
                 && (forall id :: id in inputs ==> Copies(inputs[id]))
                 && ("remoteClientDataJSON" in inputs && o.registry.Some?
                     && "remoteClientDataJSON" in o.registry.value ==>
                       outside.remoteAgrees(Registration, InputValue(inputs["remoteClientDataJSON"]),
                                            if o.challenge != [] then o.challenge else o.generated.value))
  {
    hide ValidDurations, Preparable, PreparedInputs, Copies, KeepInput, FilteredParameters, ValidIdentifier;
    assert ValidDescriptors(o.exclude) <==> forall d :: d in o.exclude ==> ValidDescriptor(d);
    assert (forall i :: 0 <= i < |o.formats| ==> ValidIdentifier(o.formats[i])) <==>
             forall f :: f in o.formats ==> ValidIdentifier(f);
  }

  /** Which inputs can be prepared together. */
  lemma PreparableExactly(operation: Operation, inputs: map<string, Input>, registry: Option<Registry>,
                          rejectUnknown: bool, transform: Transform)
    ensures Preparable(operation, inputs, registry, rejectUnknown, transform) <==>
              || |inputs| == 0
              || (&& |inputs| <= 64 && registry.Some?
                  && forall id :: id in inputs ==>
                       Prepared(operation, registry.value, rejectUnknown, transform, id, inputs[id]).Some?)
  {
    hide Prepared;
  }
}
