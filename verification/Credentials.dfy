// Stored credentials and the conditional update that a verified assertion produces.
module Credentials {
  import opened Base
  import opened AuthenticatorData
  import opened Ceremonies

  datatype Attachment = NoAttachment | Platform | CrossPlatform | AttachmentOther(text: string)

  predicate KnownAttachment(a: Attachment) { a.Platform? || a.CrossPlatform? }

  /** Drops an attachment value this package does not know. */
  function NormalizedAttachment(a: Attachment): Attachment { if KnownAttachment(a) then a else NoAttachment }

  datatype AttestationType =
    | NoneType | SelfType | BasicType | AttCaType | AnonymizationCaType | UncertainType
    | AttestationOther(text: string)

  datatype CredentialRecord = CredentialRecord(
    kind: CredentialType, id: seq<byte>, key: PublicKey, user: seq<byte>, rpId: string, aaguid: seq<byte>,
    signCount: nat, transports: seq<string>, backupEligible: bool, backedUp: bool, uvInitialized: bool,
    attachment: Attachment, attestation: AttestationType)

  predicate ValidRecord(c: CredentialRecord) {
    && c.kind.PublicKeyType?
    && c.id != [] && c.user != [] && c.rpId != ""
    && ValidKey(c.key)
    && (c.backedUp ==> c.backupEligible)
    && (c.attachment.NoAttachment? || KnownAttachment(c.attachment))
    && !c.attestation.AttestationOther?
  }

  // ----- Conditional updates -----

  datatype CredentialUpdate = CredentialUpdate(
    id: seq<byte>,
    previousSignCount: nat, previousBackedUp: bool, previousUvInitialized: bool, previousAttachment: Attachment,
    signCount: nat, signCountChanged: bool,
    backedUp: bool, backedUpChanged: bool,
    uvInitialized: bool, uvInitializedChanged: bool,
    attachment: Attachment, attachmentChanged: bool)

  datatype UpdateError = InvalidRecord | Conflict | InvalidUpdate

  /** The record still has the id and the four mutable values that the update was computed from. */
  predicate Expects(u: CredentialUpdate, c: CredentialRecord) {
    && c.id == u.id
    && c.signCount == u.previousSignCount
    && c.backedUp == u.previousBackedUp
    && c.uvInitialized == u.previousUvInitialized
    && c.attachment == u.previousAttachment
  }

  /** Writes the changed fields into a copy of the record. */
  function Assigned(u: CredentialUpdate, c: CredentialRecord): CredentialRecord {
    var c1 := if u.signCountChanged then c.(signCount := u.signCount) else c;
    var c2 := if u.backedUpChanged then c1.(backedUp := u.backedUp) else c1;
    var c3 := if u.uvInitializedChanged then c2.(uvInitialized := u.uvInitialized) else c2;
    if u.attachmentChanged then c3.(attachment := u.attachment) else c3
  }

  function ApplyTo(u: CredentialUpdate, c: CredentialRecord): (r: Result<CredentialRecord, UpdateError>)
    ensures r.Ok? ==> ValidRecord(c) && ValidRecord(r.value)
  {
    if !ValidRecord(c) then Err(InvalidRecord)
    else if !Expects(u, c) then Err(Conflict)
    else
      var next := Assigned(u, c);
      if !ValidRecord(next) then Err(InvalidUpdate) else Ok(next)
  }

  /** The fields no authentication may change. */
  predicate SameIdentity(a: CredentialRecord, b: CredentialRecord) {
    b == a.(signCount := b.signCount, backedUp := b.backedUp, uvInitialized := b.uvInitialized,
        attachment := b.attachment)
  }

  /** An update succeeds exactly on a valid record that it expects and leaves valid; it then writes each of the four
      mutable fields that it marks as changed and no other, and it conflicts exactly when a compared value moved. */
  lemma ApplyTouchesMutableOnly(u: CredentialUpdate, c: CredentialRecord)
    ensures ApplyTo(u, c).Ok? <==> ValidRecord(c) && Expects(u, c) && ValidRecord(Assigned(u, c))
    ensures ApplyTo(u, c) == Err(Conflict) <==> ValidRecord(c) && !Expects(u, c)
    ensures ApplyTo(u, c).Ok? ==>
              var next := ApplyTo(u, c).value;
              && SameIdentity(c, next)
              && next.signCount == (if u.signCountChanged then u.signCount else c.signCount)
              && next.backedUp == (if u.backedUpChanged then u.backedUp else c.backedUp)
              && next.uvInitialized == (if u.uvInitializedChanged then u.uvInitialized else c.uvInitialized)
              && next.attachment == (if u.attachmentChanged then u.attachment else c.attachment)
  {
    hide ValidRecord;
  }

  // ----- Counters -----

  datatype CounterStatus = Unsupported | Incremented | CloneRisk

  function CompareCounters(stored: nat, new_: nat): CounterStatus {
    if stored == 0 && new_ == 0 then Unsupported
    else if new_ > stored then Incremented
    else CloneRisk
  }

  // ----- The update of a verified assertion -----

  /** What an accepted assertion says about its credential. */
  datatype Assertion = Assertion(
    signCount: nat, backedUp: bool, userVerified: bool, attachment: Attachment, uvAuthorized: bool,
        updateOnCloneRisk: bool)

  function NextSignCount(c: CredentialRecord, a: Assertion): nat {
    var status := CompareCounters(c.signCount, a.signCount);
    if status.Incremented? || (status.CloneRisk? && a.updateOnCloneRisk) then a.signCount else c.signCount
  }

  function NextRecord(c: CredentialRecord, a: Assertion): CredentialRecord {
    c.(signCount := NextSignCount(c, a),
       backedUp := a.backedUp,
       uvInitialized := c.uvInitialized || (a.userVerified && a.uvAuthorized),
       attachment := if KnownAttachment(a.attachment) then a.attachment else c.attachment)
  }

  function UpdateFor(c: CredentialRecord, next: CredentialRecord): CredentialUpdate {
    CredentialUpdate(
      next.id, c.signCount, c.backedUp, c.uvInitialized, c.attachment,
      next.signCount, next.signCount != c.signCount,
      next.backedUp, next.backedUp != c.backedUp,
      next.uvInitialized, next.uvInitialized != c.uvInitialized,
      next.attachment, next.attachment != c.attachment)
  }

  /** The update applies to the record it was computed from and yields exactly the record returned beside it. */
  lemma UpdateAppliesToItsSnapshot(c: CredentialRecord, a: Assertion)
    requires ValidRecord(c) && (a.backedUp ==> c.backupEligible)
    ensures ApplyTo(UpdateFor(c, NextRecord(c, a)), c) == Ok(NextRecord(c, a))
  {}

  /** It applies to no record that differs in a compared value, whatever the other fields hold. */
  lemma UpdateRefusesOtherSnapshots(c: CredentialRecord, a: Assertion, other: CredentialRecord)
    ensures ApplyTo(UpdateFor(c, NextRecord(c, a)), other).Ok? ==>
              && other.id == c.id && other.signCount == c.signCount && other.backedUp == c.backedUp
              && other.uvInitialized == c.uvInitialized && other.attachment == c.attachment
  {}

  /** How one verified assertion may move a record. */
  predicate Advances(c: CredentialRecord, next: CredentialRecord, updateOnCloneRisk: bool) {
    && SameIdentity(c, next)
    && (updateOnCloneRisk || c.signCount <= next.signCount)
    && (c.uvInitialized ==> next.uvInitialized)
    && (next.attachment != c.attachment ==> KnownAttachment(next.attachment))
  }

  lemma AssertionAdvances(c: CredentialRecord, a: Assertion)
    ensures Advances(c, NextRecord(c, a), a.updateOnCloneRisk)
    ensures !c.uvInitialized && NextRecord(c, a).uvInitialized ==> a.userVerified && a.uvAuthorized
    ensures NextRecord(c, a).signCount < c.signCount <==>
              a.updateOnCloneRisk && a.signCount < c.signCount
  {}

  lemma AdvancesTransitive(a: CredentialRecord, b: CredentialRecord, c: CredentialRecord, updateOnCloneRisk: bool)
    requires Advances(a, b, updateOnCloneRisk) && Advances(b, c, updateOnCloneRisk)
    ensures Advances(a, c, updateOnCloneRisk)
  {}
}
