// Logins and enrolments as a concurrent state machine. Every request is a thread; each of its
// store calls is one step, local checks run between them, and steps of different threads interleave freely.
module Logins {
  import opened Base
  import opened AuthenticatorData
  import opened Ceremonies
  import opened Credentials
  import opened RelyingParty
  import opened Authentication
  import opened Stores
  import Registration

  /** What stays fixed during a run: verification, enrolment, the storage codec and the counter policy. */
  datatype Site = Site(
    verify: FinishRequest -> Option<Parsed>,
    enrol: Registration.RegistrationFinish -> Option<CredentialRecord>,
    policy: AuthPolicy, storable: Storable,
    readAuthentication: seq<byte> -> Option<AuthenticationState>,
    readRegistration: seq<byte> -> Option<RegistrationState>)

  /** The given functions that a relying party builds on. */
  datatype Given = Given(
    outside: Outside, crypto: Crypto, verifiers: Registration.Verifiers, party: Party, outputs: OutputPolicy,
    enrolment: Registration.OutputPolicy)

  /** The site verifies assertions and registrations through the relying party. */
  ghost predicate Genuine(site: Site, g: Given) {
    && site.policy == PolicyOf(g.party, g.outputs)
    && (forall q :: site.verify(q) == VerifiedData(g.outside, g.crypto, g.party, g.outputs, q))
    && (forall q :: site.enrol(q).Some? ==>
          Registration.PartyRegistration(g.outside, g.verifiers, g.party, g.enrolment, q)
              == Base.Ok(site.enrol(q).value))
  }

  /** Every relying party has such a site. */
  lemma GenuineSite(g: Given, storable: Storable, readAuthentication: seq<byte> -> Option<AuthenticationState>,
                    readRegistration: seq<byte> -> Option<RegistrationState>) returns (site: Site)
    ensures Genuine(site, g)
    ensures site.storable == storable && site.readAuthentication == readAuthentication
              && site.readRegistration == readRegistration
    ensures forall q :: site.enrol(q).Some? <==>
              Registration.PartyRegistration(g.outside, g.verifiers, g.party, g.enrolment, q).Ok?
  {
    hide VerifiedData, Registration.PartyRegistration;
    site := Site(
      q => VerifiedData(g.outside, g.crypto, g.party, g.outputs, q),
      q => match Registration.PartyRegistration(g.outside, g.verifiers, g.party, g.enrolment, q)
           case Ok(record) => Some(record)
           case Err(_) => None,
      PolicyOf(g.party, g.outputs), storable, readAuthentication, readRegistration);
  }

  /** What an accepted request guarantees about its credential and its ceremony. */
  predicate Bound(q: FinishRequest, p: Parsed) {
    && ValidRecord(q.credential)
    && q.response.rawId == q.credential.id
    && Parse(q.response.authenticatorData) == Ok(p)
    && (BackedUp(p.flags) ==> q.credential.backupEligible)
    && (q.state.expectedUser == q.credential.user
        || (q.state.expectedUser == [] && q.response.userHandle == q.credential.user))
    && q.now < q.state.expiresAt
  }

  /** All that the run-level reasoning uses of verification. */
  ghost predicate Sound(site: Site) {
    && (forall q :: site.verify(q).Some? ==> Bound(q, site.verify(q).value))
    && (forall q :: site.enrol(q).Some? ==>
        ValidRecord(site.enrol(q).value) && site.enrol(q).value.user == q.state.user)
  }

  lemma GenuineIsSound(site: Site, g: Given)
    requires Genuine(site, g)
    ensures Sound(site)
  {
    hide VerifiedData, Registration.PartyRegistration, ValidRecord, Parse, BackedUp;
    forall q | site.verify(q).Some? ensures Bound(q, site.verify(q).value) {
      VerifiedDataIsBound(g.outside, g.crypto, g.party, g.outputs, q);
    }
    forall q | site.enrol(q).Some?
      ensures ValidRecord(site.enrol(q).value) && site.enrol(q).value.user == q.state.user
    {
      Registration.PartyRecordIsValid(g.outside, g.verifiers, g.party, g.enrolment, q);
    }
  }

  /** Where a request stands between two of its steps. */
  datatype Thread =
    | Consuming(state: AuthenticationState, response: AuthenticationResponse)
    | Holding(state: AuthenticationState, response: AuthenticationResponse, row: Row)
    | Checked(q: FinishRequest, update: CredentialUpdate, version: nat)
    | Committed(user: seq<byte>)
    | Enrolling(enrolment: RegistrationState, answer: Registration.RegistrationResponse)
    | EnrolmentChecked(record: CredentialRecord)
    | Finished

  /** What a run has done to the stores, in order. */
  datatype Event =
    | Saved(id: string, ceremony: SavedCeremony)
    | Consumed(tid: nat, id: string, session: string, ceremony: SavedCeremony, at: Time)
    | Enrolled(tid: nat, record: CredentialRecord)
    | LoggedIn(tid: nat, q: FinishRequest)
    | Opened(tid: nat, sid: string, user: seq<byte>)

  /** `dropped` counts ceremonies removed because they had expired. */
  datatype World = World(
    ceremonies: CeremonyTable, rows: Rows, sessions: map<string, seq<byte>>, threads: map<nat, Thread>,
    history: seq<Event>, dropped: nat)

  const START := World(map[], map[], map[], map[], [], 0)

  datatype Step =
    | SaveStep(id: string, saved: SavedCeremony, now: Time)
    | ConsumeLogin(tid: nat, session: string, id: string, body: Option<AuthenticationResponse>, now: Time)
    | LookupStep(tid: nat)
    | VerifyStep(tid: nat, now: Time)
    | UpdateStep(tid: nat)
    | OpenStep(tid: nat, sid: string)
    | ConsumeEnrolment(tid: nat, session: string, id: string, user: seq<byte>,
        answer: Option<Registration.RegistrationResponse>, now: Time)
    | VerifyEnrolment(tid: nat, now: Time)
    | InsertStep(tid: nat)

  // ----- One login, sequentially -----

  /** Verification succeeds and reports neither clone risk nor a pending user-verification change. */
  predicate LoginAccepted(site: Site, q: FinishRequest) {
    site.verify(q).Some? &&
    var p := site.verify(q).value;
    && !CompareCounters(q.credential.signCount, p.signCount).CloneRisk?
    && !(!q.credential.uvInitialized && UserVerified(p.flags) && !q.uvAuthorized)
  }

  /** The record that an accepted login leaves behind. */
  function LoginNext(site: Site, q: FinishRequest): CredentialRecord
    requires site.verify(q).Some?
  {
    NextRecord(q.credential, AssertionOf(site.policy, q, site.verify(q).value))
  }

  /** The counter that an assertion carries, read from its signed octets alone. */
  function AssertedCount(r: AuthenticationResponse): nat {
    match Parse(r.authenticatorData)
    case Ok(p) => p.signCount
    case Err(_) => 0
  }

  /** What one accepted login does to its credential, without step-up authorization. */
  lemma LoginAdvances(site: Site, q: FinishRequest)
    requires Sound(site) && LoginAccepted(site, q) && !q.uvAuthorized
    ensures q.response.rawId == q.credential.id
    ensures ApplyTo(UpdateFor(q.credential, LoginNext(site, q)), q.credential) == Ok(LoginNext(site, q))
    ensures Advances(q.credential, LoginNext(site, q), false)
    ensures LoginNext(site, q).uvInitialized == q.credential.uvInitialized
    ensures LoginNext(site, q).signCount == AssertedCount(q.response)
    ensures q.credential.signCount < AssertedCount(q.response)
              || q.credential.signCount == AssertedCount(q.response) == 0
  {
    hide ValidRecord, ApplyTo, Parse, UserVerified, BackedUp, UpdateFor;
    assert Bound(q, site.verify(q).value);
    UpdateAppliesToItsSnapshot(q.credential, AssertionOf(site.policy, q, site.verify(q).value));
  }

  // ----- Steps -----

  function LookupUser(s: AuthenticationState, r: AuthenticationResponse): seq<byte> {
    if s.expectedUser != [] then s.expectedUser else r.userHandle
  }

  /** The local checks between consuming a login ceremony and looking the credential up. */
  function AfterLoginConsumed(site: Site, saved: SavedCeremony, body: Option<AuthenticationResponse>): Thread {
    match site.readAuthentication(saved.payload)
    case None => Finished
    case Some(s) =>
      if s.expectedUser != saved.account || s.expiresAt != saved.expires || body.None? then Finished
      else if LookupUser(s, body.value) == [] then Finished
      else Consuming(s, body.value)
  }

  function AfterEnrolmentConsumed(site: Site, saved: SavedCeremony,
      answer: Option<Registration.RegistrationResponse>): Thread {
    match site.readRegistration(saved.payload)
    case None => Finished
    case Some(s) =>
      if s.user != saved.account || s.expiresAt != saved.expires || answer.None? then Finished
      else Enrolling(s, answer.value)
  }

  function WithThread(w: World, tid: nat, t: Thread): World { w.(threads := w.threads[tid := t]) }

  function Record(w: World, e: Event): World { w.(history := w.history + [e]) }

  /** A save after pruning; a refused save still prunes. */
  function DoSave(w: World, id: string, saved: SavedCeremony, now: Time): World {
    var pruned := w.(ceremonies := AfterSave(w.ceremonies, id, saved, now),
                     dropped := w.dropped + (|w.ceremonies| - |Live(w.ceremonies, now)|));
    if CanSave(w.ceremonies, id, saved, now) then Record(pruned, Saved(id, saved)) else pruned
  }

  /** A consume; `next` is where the request goes when it obtains the ceremony. */
  function DoConsume(w: World, tid: nat, id: string, session: string, kind: CeremonyKind, account: Option<seq<byte>>,
                     now: Time, next: SavedCeremony -> Thread): World
  {
    var w1 := w.(ceremonies := AfterConsume(w.ceremonies, id, session, kind, account));
    match ConsumeResult(w.ceremonies, id, session, kind, account, now)
    case Ok(saved) => Record(WithThread(w1, tid, next(saved)), Consumed(tid, id, session, saved, now))
    case Err(CeremonyExpired) => WithThread(w1.(dropped := w.dropped + 1), tid, Finished)
    case Err(_) => WithThread(w, tid, Finished)
  }

  /** Where a lookup or a verification leaves a thread; these steps write nothing but the thread. */
  function LocalMove(site: Site, rows: Rows, t: Thread, step: Step): Option<Thread> {
    match (step, t)
    case (LookupStep(_), Consuming(s, r)) =>
      (match LookupResult(rows, r.rawId, LookupUser(s, r))
       case Ok(row) => Some(Holding(s, r, row))
       case Err(_) => Some(Finished))
    case (VerifyStep(_, now), Holding(s, r, row)) =>
      var q := FinishRequest(s, r, row.record, false, now);
      Some(if LoginAccepted(site, q) then Checked(q, UpdateFor(q.credential, LoginNext(site, q)), row.version)
          else Finished)
    case (VerifyEnrolment(_, now), Enrolling(s, answer)) =>
      (match site.enrol(Registration.RegistrationFinish(s, answer, now))
       case Some(record) => Some(EnrolmentChecked(record))
       case None => Some(Finished))
    case _ => None
  }

  function DoUpdate(site: Site, w: World, tid: nat, t: Thread): World
    requires t.Checked?
  {
    if UpdateFault(w.rows, site.storable, t.update, t.version).Some? then WithThread(w, tid, Finished)
    else
      Record(WithThread(w.(rows := AfterUpdate(w.rows, site.storable, t.update, t.version)), tid,
          Committed(t.q.credential.user)),
             LoggedIn(tid, t.q))
  }

  function DoOpen(w: World, tid: nat, t: Thread, sid: string): World
    requires t.Committed?
  {
    Record(WithThread(w.(sessions := w.sessions[sid := t.user]), tid, Finished), Opened(tid, sid, t.user))
  }

  function DoInsert(site: Site, w: World, tid: nat, t: Thread): World
    requires t.EnrolmentChecked?
  {
    if InsertFault(w.rows, site.storable, t.record).Some? then WithThread(w, tid, Finished)
    else Record(WithThread(w.(rows := AfterInsert(w.rows, site.storable, t.record)), tid, Finished),
        Enrolled(tid, t.record))
  }

  /** One step; a step that its thread is not ready for changes nothing. */
  function Apply(site: Site, w: World, step: Step): World {
    match step
    case SaveStep(id, saved, now) => DoSave(w, id, saved, now)
    case ConsumeLogin(tid, session, id, body, now) =>
      if tid in w.threads then w
      else DoConsume(w, tid, id, session, AuthenticationKind, None, now, saved => AfterLoginConsumed(site, saved, body))
    case ConsumeEnrolment(tid, session, id, user, answer, now) =>
      if tid in w.threads then w
      else DoConsume(w, tid, id, session, RegistrationKind, Some(user), now,
          saved => AfterEnrolmentConsumed(site, saved, answer))
    case UpdateStep(tid) =>
      if tid in w.threads && w.threads[tid].Checked? then DoUpdate(site, w, tid, w.threads[tid]) else w
    case OpenStep(tid, sid) =>
      if tid in w.threads && w.threads[tid].Committed? then DoOpen(w, tid, w.threads[tid], sid) else w
    case InsertStep(tid) =>
      if tid in w.threads && w.threads[tid].EnrolmentChecked? then DoInsert(site, w, tid, w.threads[tid]) else w
    case _ =>
      if step.tid in w.threads && LocalMove(site, w.rows, w.threads[step.tid], step).Some?
      then WithThread(w, step.tid, LocalMove(site, w.rows, w.threads[step.tid], step).value) else w
  }

  /** The world after a run: any steps of any threads in any order. */
  function Run(site: Site, steps: seq<Step>): World {
    if steps == [] then START else Apply(site, Run(site, steps[..|steps| - 1]), steps[|steps| - 1])
  }

  // ----- Snapshots -----

  /** The row moved on since the snapshot was taken, or is still exactly the snapshot. */
  predicate RowHolds(rows: Rows, id: seq<byte>, snapshot: Row) {
    id in rows && snapshot.version <= rows[id].version
        && (rows[id].version == snapshot.version ==> rows[id] == snapshot)
  }

  predicate ThreadHolds(site: Site, rows: Rows, t: Thread) {
    match t
    case Holding(_, r, row) => RowHolds(rows, r.rawId, row)
    case Checked(q, u, version) =>
      && LoginAccepted(site, q) && !q.uvAuthorized
      && u == UpdateFor(q.credential, LoginNext(site, q))
      && RowHolds(rows, q.response.rawId, Row(q.credential, version))
    case _ => true
  }

  predicate SnapshotsHold(site: Site, w: World) {
    forall tid :: tid in w.threads ==> ThreadHolds(site, w.rows, w.threads[tid])
  }

  /** Rows are never removed, and a row that changes gets a higher version. */
  predicate RowsGrow(before: Rows, after: Rows) {
    forall id :: id in before ==> id in after && (after[id] == before[id] || before[id].version < after[id].version)
  }

  lemma HoldsAsRowsGrow(site: Site, before: Rows, after: Rows, t: Thread)
    requires ThreadHolds(site, before, t) && RowsGrow(before, after)
    ensures ThreadHolds(site, after, t)
  {
    hide Sound, LoginAccepted, LoginNext, UpdateFor;
  }

  /** Replacing one thread keeps every other snapshot. */
  lemma MoveKeepsSnapshots(site: Site, w: World, tid: nat, t: Thread)
    requires SnapshotsHold(site, w) && ThreadHolds(site, w.rows, t)
    ensures SnapshotsHold(site, WithThread(w, tid, t))
  {
    hide ThreadHolds;
  }

  lemma GrowthKeepsSnapshots(site: Site, w: World, after: Rows)
    requires SnapshotsHold(site, w) && RowsGrow(w.rows, after)
    ensures SnapshotsHold(site, w.(rows := after))
  {
    hide ThreadHolds, RowsGrow;
    forall tid | tid in w.threads ensures ThreadHolds(site, after, w.threads[tid]) {
      HoldsAsRowsGrow(site, w.rows, after, w.threads[tid]);
    }
  }

  lemma LocalMoveHolds(site: Site, rows: Rows, t: Thread, step: Step)
    requires ThreadHolds(site, rows, t)
    ensures LocalMove(site, rows, t, step).Some? ==> ThreadHolds(site, rows, LocalMove(site, rows, t, step).value)
  {
    hide LoginAccepted, LoginNext, UpdateFor;
  }

  /** When the version check passes, the current row is the verified snapshot, so the update yields the record that
      verifying the current row would yield. */
  lemma UpdateMeetsCurrentRow(site: Site, w: World, t: Thread)
    requires Sound(site) && t.Checked? && ThreadHolds(site, w.rows, t)
    ensures UpdateFault(w.rows, site.storable, t.update, t.version).None? ==>
              && t.q.response.rawId in w.rows
              && w.rows[t.q.response.rawId] == Row(t.q.credential, t.version)
              && t.version != MAX_VERSION
              && site.storable(LoginNext(site, t.q))
              && AfterUpdate(w.rows, site.storable, t.update, t.version)
                 == w.rows[t.q.response.rawId := Row(LoginNext(site, t.q), t.version + 1)]
    ensures UpdateFault(w.rows, site.storable, t.update, t.version).Some? ==>
              || w.rows[t.q.response.rawId].version > t.version
              || t.version == MAX_VERSION
              || !site.storable(LoginNext(site, t.q))
  {
    hide Sound, LoginAccepted, LoginNext, ApplyTo;
    LoginAdvances(site, t.q);
  }

  lemma UpdateKeepsSnapshots(site: Site, w: World, tid: nat)
    requires Sound(site) && SnapshotsHold(site, w) && tid in w.threads && w.threads[tid].Checked?
    ensures SnapshotsHold(site, DoUpdate(site, w, tid, w.threads[tid]))
  {
    hide Sound, LoginAccepted, LoginNext, AfterUpdate, UpdateFault, UpdateFor, RowHolds;
    var t := w.threads[tid];
    UpdateMeetsCurrentRow(site, w, t);
    if UpdateFault(w.rows, site.storable, t.update, t.version).None? {
      var after := AfterUpdate(w.rows, site.storable, t.update, t.version);
      GrowthKeepsSnapshots(site, w, after);
      MoveKeepsSnapshots(site, w.(rows := after), tid, Committed(t.q.credential.user));
    }
  }

  lemma InsertKeepsSnapshots(site: Site, w: World, tid: nat)
    requires SnapshotsHold(site, w) && tid in w.threads && w.threads[tid].EnrolmentChecked?
    ensures SnapshotsHold(site, DoInsert(site, w, tid, w.threads[tid]))
  {
    hide ThreadHolds;
    NothingHeld(site, w.rows, Finished);
    var after := AfterInsert(w.rows, site.storable, w.threads[tid].record);
    NothingHeld(site, after, Finished);
    GrowthKeepsSnapshots(site, w, after);
    MoveKeepsSnapshots(site, w.(rows := after), tid, Finished);
  }

  lemma NothingHeld(site: Site, rows: Rows, t: Thread)
    requires !t.Holding? && !t.Checked?
    ensures ThreadHolds(site, rows, t)
  {}

  lemma ConsumeKeepsSnapshots(site: Site, w: World, tid: nat, id: string, session: string, kind: CeremonyKind,
                              account: Option<seq<byte>>, now: Time, next: SavedCeremony -> Thread)
    requires SnapshotsHold(site, w) && forall saved :: !next(saved).Holding? && !next(saved).Checked?
    ensures SnapshotsHold(site, DoConsume(w, tid, id, session, kind, account, now, next))
  {
    hide ThreadHolds, AfterConsume, ConsumeResult;
    var w' := DoConsume(w, tid, id, session, kind, account, now, next);
    NothingHeld(site, w.rows, w'.threads[tid]);
  }

  lemma OpenKeepsSnapshots(site: Site, w: World, tid: nat, sid: string)
    requires SnapshotsHold(site, w) && tid in w.threads && w.threads[tid].Committed?
    ensures SnapshotsHold(site, DoOpen(w, tid, w.threads[tid], sid))
  {
    hide ThreadHolds;
    NothingHeld(site, w.rows, Finished);
  }

  /** Consuming never leaves a thread with a snapshot or a commit. */
  lemma AfterConsumed(site: Site, body: Option<AuthenticationResponse>,
      answer: Option<Registration.RegistrationResponse>)
    ensures forall saved :: AfterLoginConsumed(site, saved, body).Consuming?
              || AfterLoginConsumed(site, saved, body).Finished?
    ensures forall saved :: AfterEnrolmentConsumed(site, saved, answer).Enrolling?
              || AfterEnrolmentConsumed(site, saved, answer).Finished?
  {}

  lemma StepKeepsSnapshots(site: Site, w: World, step: Step)
    requires Sound(site) && SnapshotsHold(site, w)
    ensures SnapshotsHold(site, Apply(site, w, step))
  {
    hide Sound, ThreadHolds, DoConsume, DoUpdate, DoOpen, DoInsert, LocalMove, CanSave, AfterSave, Live,
      AfterLoginConsumed, AfterEnrolmentConsumed;
    match step
    case SaveStep(_, _, _) =>
    case ConsumeLogin(tid, session, id, body, now) =>
      AfterConsumed(site, body, None);
      ConsumeKeepsSnapshots(site, w, tid, id, session, AuthenticationKind, None, now,
          saved => AfterLoginConsumed(site, saved, body));
    case ConsumeEnrolment(tid, session, id, user, answer, now) =>
      AfterConsumed(site, None, answer);
      ConsumeKeepsSnapshots(site, w, tid, id, session, RegistrationKind, Some(user), now,
          saved => AfterEnrolmentConsumed(site, saved, answer));
    case UpdateStep(tid) => if tid in w.threads && w.threads[tid].Checked? { UpdateKeepsSnapshots(site, w, tid); }
    case OpenStep(tid, sid) =>
      if tid in w.threads && w.threads[tid].Committed? { OpenKeepsSnapshots(site, w, tid, sid); }
    case InsertStep(tid) =>
      if tid in w.threads && w.threads[tid].EnrolmentChecked? { InsertKeepsSnapshots(site, w, tid); }
    case _ =>
      if step.tid in w.threads {
        LocalMoveHolds(site, w.rows, w.threads[step.tid], step);
      }
  }

  // ----- Serial runs -----

  /** A machine without snapshots: a login verifies and updates the current row in one action. `owners` are logins
      that have committed and not yet opened their session. */
  datatype Serial = Serial(rows: Rows, sessions: map<string, seq<byte>>, owners: map<nat, seq<byte>>)

  function SerialStep(site: Site, s: Serial, e: Event): Option<Serial> {
    match e
    case Saved(_, _) => Some(s)
    case Consumed(_, _, _, _, _) => Some(s)
    case Enrolled(_, record) =>
      if InsertFault(s.rows, site.storable, record).Some? then None
      else Some(s.(rows := s.rows[record.id := Row(record, 1)]))
    case LoggedIn(tid, q) =>
      var id := q.response.rawId;
      if id !in s.rows || q.uvAuthorized then None
      else
        var current := q.(credential := s.rows[id].record);
        if !LoginAccepted(site, current) || s.rows[id].version == MAX_VERSION
            || !site.storable(LoginNext(site, current)) then None
        else
          Some(s.(rows := s.rows[id := Row(LoginNext(site, current), s.rows[id].version + 1)],
                  owners := s.owners[tid := current.credential.user]))
    case Opened(tid, sid, user) =>
      if tid !in s.owners || s.owners[tid] != user then None
      else Some(s.(sessions := s.sessions[sid := user], owners := s.owners - {tid}))
  }

  /** In a serial run a session opens for the user of a login that its own request has committed, and once only. */
  lemma SerialOpenExactly(site: Site, s: Serial, tid: nat, sid: string, user: seq<byte>)
    ensures SerialStep(site, s, Opened(tid, sid, user)).Some? <==> tid in s.owners && s.owners[tid] == user
    ensures var next := SerialStep(site, s, Opened(tid, sid, user));
            next.Some? ==> tid !in next.value.owners && next.value.sessions == s.sessions[sid := user]
                           && next.value.rows == s.rows
  {}

  /** The serial run over a history; None as soon as one of its actions would be refused. */
  function Replay(site: Site, history: seq<Event>): Option<Serial> {
    if history == [] then Some(Serial(map[], map[], map[]))
    else
      match Replay(site, history[..|history| - 1])
      case None => None
      case Some(s) => SerialStep(site, s, history[|history| - 1])
  }

  lemma ReplayOneMore(site: Site, history: seq<Event>, e: Event)
    requires Replay(site, history).Some?
    ensures Replay(site, history + [e]) == SerialStep(site, Replay(site, history).value, e)
  {
    hide SerialStep;
    assert (history + [e])[..|history|] == history;
  }

  predicate OwnersMatch(owners: map<nat, seq<byte>>, threads: map<nat, Thread>) {
    && (forall tid :: tid in threads && threads[tid].Committed? ==> tid in owners)
    && (forall tid :: tid in owners ==> tid in threads && threads[tid] == Committed(owners[tid]))
  }

  /** The serial run over the history reaches the same rows and sessions. */
  predicate Serialized(site: Site, w: World) {
    && Replay(site, w.history).Some?
    && Replay(site, w.history).value.rows == w.rows
    && Replay(site, w.history).value.sessions == w.sessions
    && OwnersMatch(Replay(site, w.history).value.owners, w.threads)
  }

  lemma UpdateSerializes(site: Site, w: World, tid: nat)
    requires Sound(site) && SnapshotsHold(site, w) && Serialized(site, w) && tid in w.threads && w.threads[tid].Checked?
    ensures Serialized(site, DoUpdate(site, w, tid, w.threads[tid]))
  {
    hide Sound, LoginAccepted, LoginNext, AfterUpdate, UpdateFault, Replay, RowHolds;
    var t := w.threads[tid];
    assert ThreadHolds(site, w.rows, t);
    UpdateMeetsCurrentRow(site, w, t);
    if UpdateFault(w.rows, site.storable, t.update, t.version).None? {
      ReplayOneMore(site, w.history, LoggedIn(tid, t.q));
      assert t.q.(credential := w.rows[t.q.response.rawId].record) == t.q;
    }
  }

  lemma MoveSerializes(site: Site, w: World, tid: nat, t: Thread)
    requires Serialized(site, w) && !t.Committed? && (tid in w.threads ==> !w.threads[tid].Committed?)
    ensures Serialized(site, WithThread(w, tid, t))
  {
    hide Replay;
  }

  lemma LocalMoveUncommitted(site: Site, rows: Rows, t: Thread, step: Step)
    ensures LocalMove(site, rows, t, step).Some? ==> !t.Committed? && !LocalMove(site, rows, t, step).value.Committed?
  {
    hide LoginAccepted, LoginNext, UpdateFor;
  }

  lemma SaveSerializes(site: Site, w: World, id: string, saved: SavedCeremony, now: Time)
    requires Serialized(site, w)
    ensures Serialized(site, DoSave(w, id, saved, now))
  {
    hide Replay, CanSave, AfterSave, Live;
    ReplayOneMore(site, w.history, Saved(id, saved));
  }

  lemma ConsumeSerializes(site: Site, w: World, tid: nat, id: string, session: string, kind: CeremonyKind,
                          account: Option<seq<byte>>, now: Time, next: SavedCeremony -> Thread)
    requires Serialized(site, w) && tid !in w.threads && forall saved :: !next(saved).Committed?
    ensures Serialized(site, DoConsume(w, tid, id, session, kind, account, now, next))
  {
    hide Replay, AfterConsume, ConsumeResult;
    var result := ConsumeResult(w.ceremonies, id, session, kind, account, now);
    if result.Ok? { ReplayOneMore(site, w.history, Consumed(tid, id, session, result.value, now)); }
  }

  lemma OpenSerializes(site: Site, w: World, tid: nat, sid: string)
    requires Serialized(site, w) && tid in w.threads && w.threads[tid].Committed?
    ensures Serialized(site, DoOpen(w, tid, w.threads[tid], sid))
  {
    hide Replay;
    ReplayOneMore(site, w.history, Opened(tid, sid, w.threads[tid].user));
  }

  lemma InsertSerializes(site: Site, w: World, tid: nat)
    requires Serialized(site, w) && tid in w.threads && w.threads[tid].EnrolmentChecked?
    ensures Serialized(site, DoInsert(site, w, tid, w.threads[tid]))
  {
    hide Replay;
    ReplayOneMore(site, w.history, Enrolled(tid, w.threads[tid].record));
  }

  lemma StepSerializes(site: Site, w: World, step: Step)
    requires Sound(site) && SnapshotsHold(site, w) && Serialized(site, w)
    ensures Serialized(site, Apply(site, w, step))
  {
    hide Sound, SnapshotsHold, Serialized, DoSave, DoConsume, DoUpdate, DoOpen, DoInsert, LocalMove, WithThread,
      AfterLoginConsumed, AfterEnrolmentConsumed;
    match step
    case SaveStep(id, saved, now) => SaveSerializes(site, w, id, saved, now);
    case ConsumeLogin(tid, session, id, body, now) =>
      AfterConsumed(site, body, None);
      if tid !in w.threads {
        ConsumeSerializes(site, w, tid, id, session, AuthenticationKind, None, now,
            saved => AfterLoginConsumed(site, saved, body));
      }
    case ConsumeEnrolment(tid, session, id, user, answer, now) =>
      AfterConsumed(site, None, answer);
      if tid !in w.threads {
        ConsumeSerializes(site, w, tid, id, session, RegistrationKind, Some(user), now,
            saved => AfterEnrolmentConsumed(site, saved, answer));
      }
    case UpdateStep(tid) => if tid in w.threads && w.threads[tid].Checked? { UpdateSerializes(site, w, tid); }
    case OpenStep(tid, sid) => if tid in w.threads && w.threads[tid].Committed? { OpenSerializes(site, w, tid, sid); }
    case InsertStep(tid) => if tid in w.threads && w.threads[tid].EnrolmentChecked? { InsertSerializes(site, w, tid); }
    case _ =>
      if step.tid in w.threads {
        LocalMoveUncommitted(site, w.rows, w.threads[step.tid], step);
        var next := LocalMove(site, w.rows, w.threads[step.tid], step);
        if next.Some? { MoveSerializes(site, w, step.tid, next.value); }
      }
  }

  /** Every run has the same rows and sessions as the serial run over its history, in which each login verifies and
      applies atomically at its update point; every snapshot a thread holds is current or outdated by version. */
  lemma {:induction false} RunsAreSerializable(site: Site, steps: seq<Step>)
    requires Sound(site)
    ensures SnapshotsHold(site, Run(site, steps))
    ensures Serialized(site, Run(site, steps))
  {
    hide Sound, Apply, SnapshotsHold, Serialized;
    if steps == [] {
      StartHolds(site);
    } else {
      RunsAreSerializable(site, steps[..|steps| - 1]);
      StepKeepsSnapshots(site, Run(site, steps[..|steps| - 1]), steps[|steps| - 1]);
      StepSerializes(site, Run(site, steps[..|steps| - 1]), steps[|steps| - 1]);
    }
  }

  lemma StartHolds(site: Site)
    ensures SnapshotsHold(site, START) && Serialized(site, START)
  {}
}
