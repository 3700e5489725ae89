// Session provenance: what each request did to the stores, in order, in every run.
module LoginTraces {
  import opened Base
  import opened AuthenticatorData
  import opened Ceremonies
  import opened Credentials
  import opened Authentication
  import opened Stores
  import opened Logins
  import opened LoginHistory
  import Registration

  predicate Of(e: Event, tid: nat) { !e.Saved? && e.tid == tid }

  /** The events of one request. */
  function Trace(history: seq<Event>, tid: nat): seq<Event> {
    if history == [] then []
    else
      var earlier, e := Trace(history[..|history| - 1], tid), history[|history| - 1];
      if Of(e, tid) then earlier + [e] else earlier
  }

  lemma TraceOneMore(history: seq<Event>, e: Event, tid: nat)
    ensures Trace(history + [e], tid) == if Of(e, tid) then Trace(history, tid) + [e] else Trace(history, tid)
  {
    assert (history + [e])[..|history|] == history;
  }

  /** An unexpired ceremony of the given kind, taken by the browser session that started it. */
  predicate FairConsume(e: Event, tid: nat, kind: CeremonyKind) {
    && e.Consumed? && e.tid == tid
    && e.ceremony.kind == kind && e.ceremony.session == e.session && e.session != ""
    && e.at < e.ceremony.expires
  }

  /** The state that a login verifies is the one its ceremony carried. */
  predicate CarriedBy(site: Site, s: AuthenticationState, saved: SavedCeremony) {
    && site.readAuthentication(saved.payload) == Some(s)
    && s.expectedUser == saved.account && s.expiresAt == saved.expires
  }

  predicate LoginStarted(site: Site, tid: nat, trace: seq<Event>, s: AuthenticationState) {
    |trace| == 1 && FairConsume(trace[0], tid, AuthenticationKind) && CarriedBy(site, s, trace[0].ceremony)
  }

  predicate EnrolmentStarted(tid: nat, trace: seq<Event>, user: seq<byte>) {
    |trace| == 1 && FairConsume(trace[0], tid, RegistrationKind) && trace[0].ceremony.account == user
  }

  predicate LoginCommitted(site: Site, tid: nat, trace: seq<Event>, user: seq<byte>) {
    && |trace| == 2 && trace[1].LoggedIn? && trace[1].tid == tid
    && LoginStarted(site, tid, trace[..1], trace[1].q.state)
    && LoginAccepted(site, trace[1].q) && !trace[1].q.uvAuthorized && trace[1].q.credential.user == user
  }

  /** A request that opened a session: one ceremony, one update, one session, in this order. */
  predicate LoginCompleted(site: Site, tid: nat, trace: seq<Event>) {
    && |trace| == 3 && trace[2].Opened? && trace[2].tid == tid
    && LoginCommitted(site, tid, trace[..2], trace[2].user)
  }

  predicate EnrolmentCompleted(tid: nat, trace: seq<Event>) {
    && |trace| == 2 && trace[1].Enrolled? && trace[1].tid == tid
    && EnrolmentStarted(tid, trace[..1], trace[1].record.user)
  }

  predicate TraceFits(site: Site, tid: nat, t: Thread, trace: seq<Event>) {
    match t
    case Consuming(s, _) => LoginStarted(site, tid, trace, s)
    case Holding(s, _, _) => LoginStarted(site, tid, trace, s)
    case Checked(q, _, _) => LoginStarted(site, tid, trace, q.state) && LoginAccepted(site, q) && !q.uvAuthorized
    case Committed(user) => LoginCommitted(site, tid, trace, user)
    case Enrolling(s, _) => EnrolmentStarted(tid, trace, s.user)
    case EnrolmentChecked(record) => EnrolmentStarted(tid, trace, record.user)
    case Finished =>
      || trace == []
      || (|trace| == 1 && trace[0].Consumed?)
      || LoginCompleted(site, tid, trace)
      || EnrolmentCompleted(tid, trace)
  }

  ghost predicate TracesFit(site: Site, w: World) {
    && (forall tid :: tid in w.threads ==> TraceFits(site, tid, w.threads[tid], Trace(w.history, tid)))
    && (forall tid: nat :: tid !in w.threads ==> Trace(w.history, tid) == [])
  }

  lemma MoveKeepsTraces(site: Site, w: World, tid: nat, t: Thread)
    requires TracesFit(site, w) && TraceFits(site, tid, t, Trace(w.history, tid))
    ensures TracesFit(site, WithThread(w, tid, t))
  {
    hide TraceFits, Trace;
  }

  /** A step that adds one event of its own request and moves that request. */
  lemma EventKeepsTraces(site: Site, w: World, tid: nat, t: Thread, e: Event, w': World)
    requires TracesFit(site, w) && Of(e, tid)
    requires w'.history == w.history + [e] && w'.threads == w.threads[tid := t]
    requires TraceFits(site, tid, t, Trace(w.history, tid) + [e])
    ensures TracesFit(site, w')
  {
    hide TraceFits, Trace;
    forall other: nat
      ensures Trace(w'.history, other) == if other == tid then Trace(w.history, tid) + [e] else Trace(w.history, other)
    {
      TraceOneMore(w.history, e, other);
    }
  }

  lemma SaveKeepsTraces(site: Site, w: World, id: string, saved: SavedCeremony, now: Time)
    requires TracesFit(site, w)
    ensures TracesFit(site, DoSave(w, id, saved, now))
  {
    hide TraceFits, Trace, CanSave, AfterSave, Live;
    forall tid: nat ensures Trace(w.history + [Saved(id, saved)], tid) == Trace(w.history, tid) {
      TraceOneMore(w.history, Saved(id, saved), tid);
    }
  }

  /** A thread that has just obtained its ceremony fits the trace that holds nothing else. */
  lemma ConsumedFits(site: Site, tid: nat, e: Event, t: Thread)
    requires e.Consumed?
    requires t.Finished? || (t.Consuming? && LoginStarted(site, tid, [e], t.state))
              || (t.Enrolling? && EnrolmentStarted(tid, [e], t.enrolment.user))
    ensures TraceFits(site, tid, t, [e])
  {}

  lemma ConsumeKeepsTraces(site: Site, w: World, tid: nat, id: string, session: string, kind: CeremonyKind,
                           account: Option<seq<byte>>, now: Time, next: SavedCeremony -> Thread)
    requires TracesFit(site, w) && tid !in w.threads
    requires forall saved :: FairConsume(Consumed(tid, id, session, saved, now), tid, kind) ==>
               TraceFits(site, tid, next(saved), [Consumed(tid, id, session, saved, now)])
    ensures TracesFit(site, DoConsume(w, tid, id, session, kind, account, now, next))
  {
    hide Trace, AfterConsume;
    var result := ConsumeResult(w.ceremonies, id, session, kind, account, now);
    var w' := DoConsume(w, tid, id, session, kind, account, now, next);
    if result.Ok? {
      var e := Consumed(tid, id, session, result.value, now);
      assert FairConsume(e, tid, kind);
      assert Trace(w.history, tid) + [e] == [e];
      EventKeepsTraces(site, w, tid, next(result.value), e, w');
    } else {
      hide TraceFits;
      FinishedEmptyFits(site, tid);
    }
  }

  lemma FinishedEmptyFits(site: Site, tid: nat)
    ensures TraceFits(site, tid, Finished, [])
  {}

  lemma LoginConsumedFits(site: Site, tid: nat, id: string, session: string, saved: SavedCeremony, now: Time,
      body: Option<AuthenticationResponse>)
    requires FairConsume(Consumed(tid, id, session, saved, now), tid, AuthenticationKind)
    ensures TraceFits(site, tid, AfterLoginConsumed(site, saved, body), [Consumed(tid, id, session, saved, now)])
  {
    hide TraceFits;
    ConsumedFits(site, tid, Consumed(tid, id, session, saved, now), AfterLoginConsumed(site, saved, body));
  }

  lemma EnrolmentConsumedFits(site: Site, tid: nat, id: string, session: string, saved: SavedCeremony, now: Time,
      answer: Option<Registration.RegistrationResponse>)
    requires FairConsume(Consumed(tid, id, session, saved, now), tid, RegistrationKind)
    ensures TraceFits(site, tid, AfterEnrolmentConsumed(site, saved, answer), [Consumed(tid, id, session, saved, now)])
  {
    hide TraceFits;
    ConsumedFits(site, tid, Consumed(tid, id, session, saved, now), AfterEnrolmentConsumed(site, saved, answer));
  }

  lemma UpdateKeepsTraces(site: Site, w: World, tid: nat)
    requires TracesFit(site, w) && tid in w.threads && w.threads[tid].Checked?
    ensures TracesFit(site, DoUpdate(site, w, tid, w.threads[tid]))
  {
    hide Trace, UpdateFault, AfterUpdate, LoginAccepted;
    var t, trace := w.threads[tid], Trace(w.history, tid);
    assert TraceFits(site, tid, t, trace);
    if UpdateFault(w.rows, site.storable, t.update, t.version).None? {
      assert (trace + [LoggedIn(tid, t.q)])[..1] == trace;
      EventKeepsTraces(site, w, tid, Committed(t.q.credential.user), LoggedIn(tid, t.q), DoUpdate(site, w, tid, t));
    } else {
      MoveKeepsTraces(site, w, tid, Finished);
    }
  }

  lemma OpenKeepsTraces(site: Site, w: World, tid: nat, sid: string)
    requires TracesFit(site, w) && tid in w.threads && w.threads[tid].Committed?
    ensures TracesFit(site, DoOpen(w, tid, w.threads[tid], sid))
  {
    hide Trace, LoginCommitted;
    var t, trace := w.threads[tid], Trace(w.history, tid);
    assert TraceFits(site, tid, t, trace);
    CommittedHasTwo(site, tid, trace, t.user);
    assert (trace + [Opened(tid, sid, t.user)])[..2] == trace;
    EventKeepsTraces(site, w, tid, Finished, Opened(tid, sid, t.user), DoOpen(w, tid, t, sid));
  }

  lemma CommittedHasTwo(site: Site, tid: nat, trace: seq<Event>, user: seq<byte>)
    requires LoginCommitted(site, tid, trace, user)
    ensures |trace| == 2
  {}

  lemma InsertKeepsTraces(site: Site, w: World, tid: nat)
    requires TracesFit(site, w) && tid in w.threads && w.threads[tid].EnrolmentChecked?
    ensures TracesFit(site, DoInsert(site, w, tid, w.threads[tid]))
  {
    hide Trace, InsertFault, AfterInsert;
    var t, trace := w.threads[tid], Trace(w.history, tid);
    assert TraceFits(site, tid, t, trace);
    if InsertFault(w.rows, site.storable, t.record).None? {
      assert (trace + [Enrolled(tid, t.record)])[..1] == trace;
      EventKeepsTraces(site, w, tid, Finished, Enrolled(tid, t.record), DoInsert(site, w, tid, t));
    } else {
      MoveKeepsTraces(site, w, tid, Finished);
    }
  }

  lemma LocalMoveFits(site: Site, rows: Rows, tid: nat, t: Thread, step: Step, trace: seq<Event>)
    requires Sound(site) && TraceFits(site, tid, t, trace)
    ensures LocalMove(site, rows, t, step).Some? ==> TraceFits(site, tid, LocalMove(site, rows, t, step).value, trace)
  {
    hide LoginAccepted, LoginNext, UpdateFor, ValidRecord, Bound, LookupResult;
  }

  lemma StepKeepsTraces(site: Site, w: World, step: Step)
    requires Sound(site) && TracesFit(site, w)
    ensures TracesFit(site, Apply(site, w, step))
  {
    hide Sound, TracesFit, TraceFits, DoSave, DoConsume, DoUpdate, DoOpen, DoInsert, LocalMove, WithThread,
      AfterLoginConsumed, AfterEnrolmentConsumed, FairConsume;
    match step
    case SaveStep(id, saved, now) => SaveKeepsTraces(site, w, id, saved, now);
    case ConsumeLogin(tid, session, id, body, now) =>
      forall saved | FairConsume(Consumed(tid, id, session, saved, now), tid, AuthenticationKind)
        ensures TraceFits(site, tid, AfterLoginConsumed(site, saved, body), [Consumed(tid, id, session, saved, now)])
      {
        LoginConsumedFits(site, tid, id, session, saved, now, body);
      }
      if tid !in w.threads {
        ConsumeKeepsTraces(site, w, tid, id, session, AuthenticationKind, None, now,
            saved => AfterLoginConsumed(site, saved, body));
      }
    case ConsumeEnrolment(tid, session, id, user, answer, now) =>
      forall saved | FairConsume(Consumed(tid, id, session, saved, now), tid, RegistrationKind)
        ensures TraceFits(site, tid, AfterEnrolmentConsumed(site, saved, answer),
                  [Consumed(tid, id, session, saved, now)])
      {
        EnrolmentConsumedFits(site, tid, id, session, saved, now, answer);
      }
      if tid !in w.threads {
        ConsumeKeepsTraces(site, w, tid, id, session, RegistrationKind, Some(user), now,
            saved => AfterEnrolmentConsumed(site, saved, answer));
      }
    case UpdateStep(tid) => if tid in w.threads && w.threads[tid].Checked? { UpdateKeepsTraces(site, w, tid); }
    case OpenStep(tid, sid) => if tid in w.threads && w.threads[tid].Committed? { OpenKeepsTraces(site, w, tid, sid); }
    case InsertStep(tid) => if tid in w.threads && w.threads[tid].EnrolmentChecked? { InsertKeepsTraces(site, w, tid); }
    case _ =>
      if step.tid in w.threads { LocalStepKeepsTraces(site, w, step, step.tid); }
  }

  lemma LocalStepKeepsTraces(site: Site, w: World, step: Step, tid: nat)
    requires Sound(site) && TracesFit(site, w) && tid in w.threads
    ensures LocalMove(site, w.rows, w.threads[tid], step).Some? ==>
              TracesFit(site, WithThread(w, tid, LocalMove(site, w.rows, w.threads[tid], step).value))
  {
    hide Sound, TraceFits, LocalMove;
    LocalMoveFits(site, w.rows, tid, w.threads[tid], step, Trace(w.history, tid));
    var next := LocalMove(site, w.rows, w.threads[tid], step);
    if next.Some? { MoveKeepsTraces(site, w, tid, next.value); }
  }

  lemma {:induction false} TracesOfEveryRun(site: Site, steps: seq<Step>)
    requires Sound(site)
    ensures TracesFit(site, Run(site, steps))
  {
    hide Sound, Apply, TraceFits;
    if steps != [] {
      TracesOfEveryRun(site, steps[..|steps| - 1]);
      StepKeepsTraces(site, Run(site, steps[..|steps| - 1]), steps[|steps| - 1]);
    }
  }

  lemma {:induction false} EventInTrace(history: seq<Event>, e: Event, tid: nat)
    requires e in history && Of(e, tid)
    ensures e in Trace(history, tid)
  {
    var before, last := history[..|history| - 1], history[|history| - 1];
    if e == last {
      assert Trace(history, tid)[|Trace(before, tid)|] == e;
    } else {
      assert e in before;
      EventInTrace(before, e, tid);
    }
  }

  /** Every session that any run opens belongs to a request that consumed one unexpired authentication ceremony of its
      own browser session, verified the state that ceremony carried against a credential of that user on an assertion
      without risk, committed the update, and did nothing else. A ceremony bound to an account gives a session for
      that account only. */
  lemma SessionProvenance(site: Site, steps: seq<Step>, tid: nat, sid: string, user: seq<byte>)
    requires Sound(site) && Opened(tid, sid, user) in Run(site, steps).history
    ensures var trace := Trace(Run(site, steps).history, tid);
            && LoginCompleted(site, tid, trace)
            && trace[2] == Opened(tid, sid, user)
            && (trace[0].ceremony.account == user
                || (trace[0].ceremony.account == [] && trace[1].q.response.userHandle == user))
            && SafeAssertion(trace[1].q)
  {
    hide Run, LoginAccepted;
    TracesOfEveryRun(site, steps);
    var w := Run(site, steps);
    var trace := Trace(w.history, tid);
    EventInTrace(w.history, Opened(tid, sid, user), tid);
    assert tid in w.threads && TraceFits(site, tid, w.threads[tid], trace);
    assert Opened(tid, sid, user) in trace;
    OnlyCompletedOpens(site, tid, w.threads[tid], trace, Opened(tid, sid, user));
    AcceptedOwner(site, trace[1].q);
    AcceptedIsSafe(site, trace[1].q);
  }

  /** The signed octets report no user verification that the credential was not initialized for, and a counter above
      the stored one unless neither counts. */
  predicate SafeAssertion(q: FinishRequest) {
    match Parse(q.response.authenticatorData)
    case Err(_) => false
    case Ok(p) =>
      && (Bit(p.flags, 0x04) ==> q.credential.uvInitialized)
      && (q.credential.signCount < p.signCount || q.credential.signCount == p.signCount == 0)
  }

  lemma AcceptedIsSafe(site: Site, q: FinishRequest)
    requires Sound(site) && LoginAccepted(site, q) && !q.uvAuthorized
    ensures SafeAssertion(q)
  {
    hide Parse, ValidRecord;
    assert Bound(q, site.verify(q).value);
  }

  lemma AcceptedOwner(site: Site, q: FinishRequest)
    requires Sound(site) && LoginAccepted(site, q)
    ensures q.state.expectedUser == q.credential.user
              || (q.state.expectedUser == [] && q.response.userHandle == q.credential.user)
  {
    assert Bound(q, site.verify(q).value);
  }

  lemma OnlyCompletedOpens(site: Site, tid: nat, t: Thread, trace: seq<Event>, e: Event)
    requires TraceFits(site, tid, t, trace) && e.Opened? && e in trace
    ensures LoginCompleted(site, tid, trace) && trace[2] == e
  {
    hide LoginAccepted, CarriedBy;
  }

  /** A stored session is one that a run opened, so it has such a history. */
  lemma StoredSessionProvenance(site: Site, steps: seq<Step>, sid: string) returns (tid: nat)
    requires Sound(site) && sid in Run(site, steps).sessions
    ensures var trace := Trace(Run(site, steps).history, tid);
            && LoginCompleted(site, tid, trace)
            && trace[2] == Opened(tid, sid, Run(site, steps).sessions[sid])
            && SafeAssertion(trace[1].q)
  {
    hide Run, Sound, Replay, TraceFits;
    RunsAreSerializable(site, steps);
    var w := Run(site, steps);
    SessionsWereOpened(site, w.history, sid);
    tid :| Opened(tid, sid, w.sessions[sid]) in w.history;
    SessionProvenance(site, steps, tid, sid, w.sessions[sid]);
  }
}
