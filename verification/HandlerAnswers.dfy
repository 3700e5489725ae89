// What the request handlers answer, as ordered tables over the stores and the request alone.
module HandlerAnswers {
  import opened Base
  import opened AuthenticatorData
  import opened Ceremonies
  import opened Credentials
  import opened Authentication
  import opened Stores
  import opened Logins
  import opened Application
  import Registration

  // ----- The record a login leaves behind -----

  /** The record with the counter, backup state and known attachment of the assertion. */
  function Advanced(q: FinishRequest): CredentialRecord {
    var p := ParsedOr(q.response.authenticatorData);
    q.credential.(
      signCount := p.signCount, backedUp := Bit(p.flags, 0x10),
      attachment := if q.response.attachment in {Platform, CrossPlatform} then q.response.attachment
                    else q.credential.attachment)
  }

  /** No risk: the counter is ahead unless neither counts, and no verification awaits authorization. */
  predicate RiskFree(q: FinishRequest) {
    var p := ParsedOr(q.response.authenticatorData);
    && (q.credential.signCount < p.signCount || q.credential.signCount == p.signCount == 0)
    && (Bit(p.flags, 0x04) ==> q.credential.uvInitialized)
  }

  lemma AcceptedExactly(site: Site, q: FinishRequest)
    requires Sound(site) && !q.uvAuthorized
    ensures LoginAccepted(site, q) <==> site.verify(q).Some? && RiskFree(q)
    ensures LoginAccepted(site, q) ==> LoginNext(site, q) == Advanced(q)
  {
    hide Parse, ValidRecord;
    if site.verify(q).Some? { assert Bound(q, site.verify(q).value); }
  }

  // ----- Login -----

  /** From the looked-up row on: verification, risk, the row's version, and the envelope limit. */
  ghost function CompletionTable(site: Site, rows: Rows, q: FinishRequest, version: nat): seq<Check<AppError>> {
    [Check(site.verify(q).Some?, VerificationFailed),
     Check(RiskFree(q), RiskDetected),
     Check(q.response.rawId in rows && rows[q.response.rawId].version == version && version != 0xffff_ffff_ffff_ffff,
           StoreFailed(UpdateConflict)),
     Check(site.storable(Advanced(q)), StoreFailed(NotStorable))]
  }

  lemma CompletionByTable(site: Site, rows: Rows, q: FinishRequest, version: nat, sid: string)
    requires Sound(site) && !q.uvAuthorized && RowHolds(rows, q.response.rawId, Row(q.credential, version))
    ensures var fault := FirstFailure(CompletionTable(site, rows, q, version), 0);
            CompletionAnswer(site, rows, q, version, sid) == if fault.Some? then Err(fault.value) else Ok(sid)
  {
    hide FirstFailure, LoginAccepted, LoginNext, RiskFree, Advanced, Sound, ApplyTo;
    var t := CompletionTable(site, rows, q, version);
    NextCheck(t, 0);
    NextCheck(t, 1);
    NextCheck(t, 2);
    NextCheck(t, 3);
    NextCheck(t, 4);
    AcceptedExactly(site, q);
    if LoginAccepted(site, q) {
      LoginAdvances(site, q);
      UpdateNamesRow(q.credential, LoginNext(site, q));
    }
    hide UpdateFor;
  }

  lemma UpdateNamesRow(c: CredentialRecord, next: CredentialRecord)
    ensures UpdateFor(c, next).id == next.id
  {}

  /** A ceremony that the request may take: its own browser session's, and of the right kind. */
  predicate Takes(w: World, id: string, session: string, kind: CeremonyKind) {
    session != "" && id in w.ceremonies && w.ceremonies[id].session == session && w.ceremonies[id].kind == kind
  }

  /** What a login needs before it looks its credential up. */
  ghost predicate Readable(site: Site, saved: SavedCeremony, body: Option<AuthenticationResponse>,
                           s: AuthenticationState, r: AuthenticationResponse)
  {
    && site.readAuthentication(saved.payload) == Some(s) && body == Some(r)
    && s.expectedUser == saved.account && s.expiresAt == saved.expires
    && (s.expectedUser != [] || r.userHandle != [])
  }

  /** The user that the credential must belong to. */
  function Claimed(s: AuthenticationState, r: AuthenticationResponse): seq<byte> {
    if s.expectedUser == [] then r.userHandle else s.expectedUser
  }

  /** Before the credential is looked up: an unknown or foreign ceremony is denied, an expired one reported, and one
      that does not carry the state it was saved with, or comes without a response or a user, is refused. */
  lemma LoginRefusedEarly(site: Site, w: World, session: string, id: string, body: Option<AuthenticationResponse>,
                          consumedAt: Time, verifiedAt: Time, sid: string)
    ensures !Takes(w, id, session, AuthenticationKind) ==>
              LoginAnswer(site, w, session, id, body, consumedAt, verifiedAt, sid) == Err(StoreFailed(Denied))
    ensures Takes(w, id, session, AuthenticationKind) && consumedAt >= w.ceremonies[id].expires ==>
              LoginAnswer(site, w, session, id, body, consumedAt, verifiedAt, sid) == Err(StoreFailed(CeremonyExpired))
    ensures Takes(w, id, session, AuthenticationKind) && consumedAt < w.ceremonies[id].expires ==>
              (forall s, r :: !Readable(site, w.ceremonies[id], body, s, r)) ==>
                LoginAnswer(site, w, session, id, body, consumedAt, verifiedAt, sid) == Err(BadState)
  {
    hide CompletionAnswer;
    if Takes(w, id, session, AuthenticationKind) && body.Some? {
      var s := site.readAuthentication(w.ceremonies[id].payload);
      var carried := s.Some? && Readable(site, w.ceremonies[id], body, s.value, body.value);
    }
  }

  /** From the lookup on: a credential that is missing or not the user's is denied, any other goes through the
      completion table. */
  lemma LoginLooksUp(site: Site, w: World, session: string, id: string, body: Option<AuthenticationResponse>,
                     consumedAt: Time, verifiedAt: Time, sid: string, s: AuthenticationState, r: AuthenticationResponse)
    requires Takes(w, id, session, AuthenticationKind) && consumedAt < w.ceremonies[id].expires
    requires Readable(site, w.ceremonies[id], body, s, r)
    ensures LoginAnswer(site, w, session, id, body, consumedAt, verifiedAt, sid) ==
              if r.rawId !in w.rows || w.rows[r.rawId].record.user != Claimed(s, r) then Err(StoreFailed(Denied))
              else CompletionAnswer(site, w.rows, FinishRequest(s, r, w.rows[r.rawId].record, false, verifiedAt),
                                    w.rows[r.rawId].version, sid)
  {
    hide CompletionAnswer;
  }

  // ----- Enrolment -----

  /** What an enrolment needs before it is verified. */
  ghost predicate ReadableEnrolment(site: Site, saved: SavedCeremony,
                                    answer: Option<Registration.RegistrationResponse>,
                                    s: RegistrationState, a: Registration.RegistrationResponse)
  {
    && site.readRegistration(saved.payload) == Some(s) && answer == Some(a)
    && s.user == saved.account && s.expiresAt == saved.expires
  }

  lemma EnrolmentRefusedEarly(site: Site, w: World, session: string, id: string, user: seq<byte>,
                              answer: Option<Registration.RegistrationResponse>, consumedAt: Time, verifiedAt: Time)
    ensures !(Takes(w, id, session, RegistrationKind) && w.ceremonies[id].account == user) ==>
              EnrolmentAnswer(site, w, session, id, user, answer, consumedAt, verifiedAt) == Some(StoreFailed(Denied))
    ensures Takes(w, id, session, RegistrationKind) && w.ceremonies[id].account == user ==>
              consumedAt >= w.ceremonies[id].expires ==>
                EnrolmentAnswer(site, w, session, id, user, answer, consumedAt, verifiedAt)
                  == Some(StoreFailed(CeremonyExpired))
    ensures Takes(w, id, session, RegistrationKind) && w.ceremonies[id].account == user ==>
              consumedAt < w.ceremonies[id].expires ==>
                (forall s, a :: !ReadableEnrolment(site, w.ceremonies[id], answer, s, a)) ==>
                  EnrolmentAnswer(site, w, session, id, user, answer, consumedAt, verifiedAt) == Some(BadState)
  {
    hide InsertFault;
    if Takes(w, id, session, RegistrationKind) && answer.Some? {
      var s := site.readRegistration(w.ceremonies[id].payload);
      var carried := s.Some? && ReadableEnrolment(site, w.ceremonies[id], answer, s.value, answer.value);
    }
  }

  /** Verification, the envelope limit, and the unique id, in this order. */
  ghost function InsertionTable(site: Site, rows: Rows, q: Registration.RegistrationFinish): seq<Check<AppError>> {
    var record := site.enrol(q);
    [Check(record.Some?, VerificationFailed),
     Check(record.Some? ==> site.storable(record.value), StoreFailed(NotStorable)),
     Check(record.Some? ==> record.value.id !in rows, StoreFailed(Duplicate))]
  }

  lemma EnrolmentByTable(site: Site, w: World, session: string, id: string, user: seq<byte>,
                         answer: Option<Registration.RegistrationResponse>, consumedAt: Time, verifiedAt: Time,
                         s: RegistrationState, a: Registration.RegistrationResponse)
    requires Sound(site)
    requires Takes(w, id, session, RegistrationKind) && w.ceremonies[id].account == user
    requires consumedAt < w.ceremonies[id].expires && ReadableEnrolment(site, w.ceremonies[id], answer, s, a)
    ensures EnrolmentAnswer(site, w, session, id, user, answer, consumedAt, verifiedAt)
         == FirstFailure(InsertionTable(site, w.rows, Registration.RegistrationFinish(s, a, verifiedAt)), 0)
  {
    hide FirstFailure, ValidRecord, Bound;
    var t := InsertionTable(site, w.rows, Registration.RegistrationFinish(s, a, verifiedAt));
    NextCheck(t, 0);
    NextCheck(t, 1);
    NextCheck(t, 2);
    NextCheck(t, 3);
  }
}
