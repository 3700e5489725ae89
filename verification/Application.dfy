// The application's request handlers over its stores: each handler, run alone, is the sequence of
// steps that the state machine interleaves.
module Application {
  import opened Base
  import opened AuthenticatorData
  import opened Ceremonies
  import opened Credentials
  import opened Authentication
  import opened Stores
  import opened Logins
  import Registration

  datatype AppError =
    | StoreFailed(error: StoreError) | BadState | RequestDenied | VerificationFailed | RiskDetected

  /** The five steps of a login request, in order. */
  function LoginSteps(tid: nat, session: string, id: string, body: Option<AuthenticationResponse>, consumedAt: Time,
                      verifiedAt: Time, sid: string): seq<Step>
  {
    [ConsumeLogin(tid, session, id, body, consumedAt), LookupStep(tid), VerifyStep(tid, verifiedAt), UpdateStep(tid),
        OpenStep(tid, sid)]
  }

  function EnrolmentSteps(tid: nat, session: string, id: string, user: seq<byte>,
      answer: Option<Registration.RegistrationResponse>,
                          consumedAt: Time, verifiedAt: Time): seq<Step>
  {
    [ConsumeEnrolment(tid, session, id, user, answer, consumedAt), VerifyEnrolment(tid, verifiedAt), InsertStep(tid)]
  }

  /** The world after more steps. */
  function Continue(site: Site, w: World, steps: seq<Step>): World
    decreases |steps|
  {
    if steps == [] then w else Continue(site, Apply(site, w, steps[0]), steps[1..])
  }

  lemma ContinueThree(site: Site, w: World, a: Step, b: Step, c: Step)
    ensures Continue(site, w, [a, b, c]) == Apply(site, Apply(site, Apply(site, w, a), b), c)
  {
    hide Apply;
    assert [a, b, c][1..] == [b, c] && [b, c][1..] == [c] && [c][1..] == [];
    var w1 := Apply(site, w, a);
    assert Continue(site, w1, [b, c]) == Continue(site, Apply(site, w1, b), [c]);
  }

  lemma {:induction false} RunThenContinue(site: Site, before: seq<Step>, after: seq<Step>)
    ensures Run(site, before + after) == Continue(site, Run(site, before), after)
    decreases |after|
  {
    hide Apply;
    if after == [] {
      assert before + after == before;
    } else {
      var step := after[0];
      assert (before + [step])[..|before|] == before;
      assert before + after == (before + [step]) + after[1..];
      RunThenContinue(site, before + [step], after[1..]);
    }
  }

  /** A request that has finished takes no further step. */
  lemma {:induction false} FinishedStays(site: Site, w: World, tid: nat, steps: seq<Step>)
    requires tid in w.threads && w.threads[tid].Finished?
    requires forall i :: 0 <= i < |steps| ==> !steps[i].SaveStep? && steps[i].tid == tid
    ensures Continue(site, w, steps) == w
  {
    if steps != [] {
      assert Apply(site, w, steps[0]) == w;
      FinishedStays(site, w, tid, steps[1..]);
    }
  }

  // ----- What the handlers answer -----

  /** A risk is reported exactly when the assertion verifies, but its counter is not ahead although one of the two
      counts, or it reports a user verification that the credential was not initialized for. */
  function CompletionAnswer(site: Site, rows: Rows, q: FinishRequest, version: nat,
                            sid: string): (r: Result<string, AppError>)
    ensures r == Err(VerificationFailed) <==> site.verify(q).None?
    ensures !q.uvAuthorized ==>
              (r == Err(RiskDetected) <==>
                 && site.verify(q).Some?
                 && var c, p := q.credential, site.verify(q).value;
                    || (p.signCount <= c.signCount && c.signCount != 0)
                    || (Bit(p.flags, 0x04) && !c.uvInitialized))
    ensures r.Ok? ==> r.value == sid
  {
    if site.verify(q).None? then Err(VerificationFailed)
    else if !LoginAccepted(site, q) then Err(RiskDetected)
    else
      match UpdateFault(rows, site.storable, UpdateFor(q.credential, LoginNext(site, q)), version)
      case Some(e) => Err(StoreFailed(e))
      case None => Ok(sid)
  }

  function LoginAnswer(site: Site, w: World, session: string, id: string, body: Option<AuthenticationResponse>,
                       consumedAt: Time, verifiedAt: Time, sid: string): Result<string, AppError>
  {
    match ConsumeResult(w.ceremonies, id, session, AuthenticationKind, None, consumedAt)
    case Err(e) => Err(StoreFailed(e))
    case Ok(saved) =>
      match AfterLoginConsumed(site, saved, body)
      case Consuming(s, r) =>
        (match LookupResult(w.rows, r.rawId, LookupUser(s, r))
         case Err(e) => Err(StoreFailed(e))
         case Ok(row) =>
           CompletionAnswer(site, w.rows, FinishRequest(s, r, row.record, false, verifiedAt), row.version, sid))
      case _ => Err(BadState)
  }

  function EnrolmentAnswer(site: Site, w: World, session: string, id: string, user: seq<byte>,
                           answer: Option<Registration.RegistrationResponse>, consumedAt: Time,
                           verifiedAt: Time): Option<AppError>
  {
    match ConsumeResult(w.ceremonies, id, session, RegistrationKind, Some(user), consumedAt)
    case Err(e) => Some(StoreFailed(e))
    case Ok(saved) =>
      match AfterEnrolmentConsumed(site, saved, answer)
      case Enrolling(s, a) =>
        (match site.enrol(Registration.RegistrationFinish(s, a, verifiedAt))
         case None => Some(VerificationFailed)
         case Some(record) =>
           match InsertFault(w.rows, site.storable, record) case Some(e) => Some(StoreFailed(e)) case None => None)
      case _ => Some(BadState)
  }

  class App {
    const site: Site
    const ceremonies: MemoryCeremonies
    const credentials: MemoryCredentials
    const sessions: MemorySessions

    constructor (site: Site)
      ensures this.site == site && credentials.storable == site.storable
      ensures Matches(START)
      ensures fresh(ceremonies) && fresh(credentials) && fresh(sessions)
    {
      this.site := site;
      ceremonies := new MemoryCeremonies();
      credentials := new MemoryCredentials(site.storable);
      sessions := new MemorySessions();
    }

    /** The stores hold what a world says they hold. */
    ghost predicate Matches(w: World)
      reads ceremonies, credentials, sessions
    {
      ceremonies.entries == w.ceremonies && credentials.entries == w.rows && sessions.entries == w.sessions
    }

    /** Stores a started ceremony for a browser session; without a session nothing is touched. */
    method Save(id: string, saved: SavedCeremony, now: Time, ghost w: World) returns (r: Option<AppError>)
      requires Matches(w)
      modifies ceremonies
      ensures Matches(if saved.session == "" then w else Apply(site, w, SaveStep(id, saved, now)))
      ensures r.None? <==> CanSave(w.ceremonies, id, saved, now)
      ensures ceremonies.entries == if saved.session == "" then old(ceremonies.entries)
                                    else AfterSave(old(ceremonies.entries), id, saved, now)
    {
      hide AfterSave, Live;
      if saved.session == "" {
        return Some(RequestDenied);
      }
      var ok := ceremonies.Save(id, saved, now);
      return if ok then None else Some(StoreFailed(Denied));
    }

    /** The part of a login after its credential has been looked up. */
    method CompleteLogin(state: AuthenticationState, response: AuthenticationResponse, row: Row, verifiedAt: Time,
        sid: string, ghost w: World, ghost tid: nat)
      returns (r: Result<string, AppError>)
      requires Matches(w) && credentials.storable == site.storable
      requires tid in w.threads && w.threads[tid] == Holding(state, response, row)
      modifies credentials`entries, sessions
      ensures Matches(Continue(site, w, [VerifyStep(tid, verifiedAt), UpdateStep(tid), OpenStep(tid, sid)]))
      ensures r == CompletionAnswer(site, w.rows, FinishRequest(state, response, row.record, false, verifiedAt),
                                    row.version, sid)
      ensures r.Ok? <==> credentials.entries != old(credentials.entries)
      ensures r.Err? ==> sessions.entries == old(sessions.entries)
      ensures r.Ok? ==> sessions.entries == old(sessions.entries)[sid := row.record.user]
      ensures r.Ok? ==>
                var q := FinishRequest(state, response, row.record, false, verifiedAt);
                credentials.entries
                  == AfterUpdate(w.rows, site.storable, UpdateFor(row.record, LoginNext(site, q)), row.version)
    {
      hide LoginAccepted, LoginNext, UpdateFor, UpdateFault, AfterUpdate, CompareCounters, Continue, Apply;
      ContinueThree(site, w, VerifyStep(tid, verifiedAt), UpdateStep(tid), OpenStep(tid, sid));
      ghost var w1 := Apply(site, w, VerifyStep(tid, verifiedAt));
      ghost var w2 := Apply(site, w1, UpdateStep(tid));
      VerifyMoves(site, w, tid, verifiedAt);
      UpdateMoves(site, w1, tid);
      OpenMoves(site, w2, tid, sid);
      var q := FinishRequest(state, response, row.record, false, verifiedAt);
      var verified := site.verify(q);
      AcceptedVerifies(site, q);
      if verified.None? {
        return Err(VerificationFailed);
      }
      if !LoginAccepted(site, q) {
        return Err(RiskDetected);
      }
      var update := UpdateFor(q.credential, LoginNext(site, q));
      UpdateShows(w.rows, site.storable, update, row.version);
      var fault := credentials.Update(update, row.version);
      if fault.Some? {
        return Err(StoreFailed(fault.value));
      }
      sessions.Create(sid, q.credential.user);
      return Ok(sid);
    }

    /** Consumes the ceremony, looks the credential up, verifies, updates conditionally and opens a session. */
    method FinishLogin(session: string, id: string, body: Option<AuthenticationResponse>, consumedAt: Time,
        verifiedAt: Time, sid: string, ghost w: World, ghost tid: nat)
      returns (r: Result<string, AppError>)
      requires Matches(w) && credentials.storable == site.storable && tid !in w.threads
      modifies ceremonies, credentials`entries, sessions
      ensures Matches(Continue(site, w, LoginSteps(tid, session, id, body, consumedAt, verifiedAt, sid)))
      ensures r == LoginAnswer(site, w, session, id, body, consumedAt, verifiedAt, sid)
      ensures r.Ok? <==> credentials.entries != old(credentials.entries)
      ensures r.Err? ==> sessions.entries == old(sessions.entries)
      ensures r.Ok? ==> body.Some? && body.value.rawId in w.rows
      ensures r.Ok? ==> sessions.entries == old(sessions.entries)[sid := w.rows[body.value.rawId].record.user]
      ensures ceremonies.entries == AfterConsume(old(ceremonies.entries), id, session, AuthenticationKind, None)
    {
      hide AfterConsume, LocalMove, DoUpdate, DoOpen, CompletionAnswer, UpdateFor, AfterUpdate, LoginNext,
        LoginAccepted;
      ghost var steps := LoginSteps(tid, session, id, body, consumedAt, verifiedAt, sid);
      ghost var rest := [VerifyStep(tid, verifiedAt), UpdateStep(tid), OpenStep(tid, sid)];
      assert steps[1..] == [LookupStep(tid)] + rest && steps[1..][1..] == rest;
      ghost var w1 := Apply(site, w, steps[0]);
      var consumed := ceremonies.Consume(id, session, AuthenticationKind, None, consumedAt);
      if consumed.Err? {
        RefusedConsume(w, tid, id, session, AuthenticationKind, None, consumedAt,
            saved => AfterLoginConsumed(site, saved, body));
        FinishedStays(site, w1, tid, steps[1..]);
        return Err(StoreFailed(consumed.error));
      }
      var thread := AfterLoginConsumed(site, consumed.value, body);
      assert w1.threads[tid] == thread && Matches(w1);
      if !thread.Consuming? {
        FinishedStays(site, w1, tid, steps[1..]);
        return Err(BadState);
      }
      ghost var w2 := Apply(site, w1, LookupStep(tid));
      var stored := credentials.Lookup(thread.response.rawId, LookupUser(thread.state, thread.response));
      LookupMoves(site, w1, tid);
      if stored.Err? {
        FinishedStays(site, w2, tid, rest);
        return Err(StoreFailed(stored.error));
      }
      r := CompleteLogin(thread.state, thread.response, stored.value, verifiedAt, sid, w2, tid);
    }

    /** The part of an enrolment after its ceremony has been consumed. */
    method CompleteEnrolment(state: RegistrationState, answer: Registration.RegistrationResponse, verifiedAt: Time,
        ghost w: World, ghost tid: nat)
      returns (r: Option<AppError>)
      requires Matches(w) && credentials.storable == site.storable
      requires tid in w.threads && w.threads[tid] == Enrolling(state, answer)
      modifies credentials`entries
      ensures Matches(Apply(site, Apply(site, w, VerifyEnrolment(tid, verifiedAt)), InsertStep(tid)))
      ensures r == match site.enrol(Registration.RegistrationFinish(state, answer, verifiedAt))
                   case None => Some(VerificationFailed)
                   case Some(record) =>
                     match InsertFault(w.rows, site.storable, record)
                     case Some(e) => Some(StoreFailed(e)) case None => None
      ensures r.None? <==> credentials.entries != old(credentials.entries)
    {
      hide Apply, InsertFault, AfterInsert;
      EnrolmentVerifyMoves(site, w, tid, verifiedAt);
      InsertMoves(site, Apply(site, w, VerifyEnrolment(tid, verifiedAt)), tid);
      var record := site.enrol(Registration.RegistrationFinish(state, answer, verifiedAt));
      if record.None? {
        return Some(VerificationFailed);
      }
      InsertShows(w.rows, site.storable, record.value);
      var fault := credentials.Insert(record.value);
      return if fault.Some? then Some(StoreFailed(fault.value)) else None;
    }

    /** Consumes the ceremony of the enrolling account, verifies, and inserts the new credential. */
    method FinishEnrolment(session: string, id: string, user: seq<byte>,
        answer: Option<Registration.RegistrationResponse>,
                           consumedAt: Time, verifiedAt: Time, ghost w: World, ghost tid: nat)
      returns (r: Option<AppError>)
      requires Matches(w) && credentials.storable == site.storable && tid !in w.threads
      modifies ceremonies, credentials`entries
      ensures Matches(Continue(site, w, EnrolmentSteps(tid, session, id, user, answer, consumedAt, verifiedAt)))
      ensures r == EnrolmentAnswer(site, w, session, id, user, answer, consumedAt, verifiedAt)
      ensures r.None? <==> credentials.entries != old(credentials.entries)
      ensures ceremonies.entries == AfterConsume(old(ceremonies.entries), id, session, RegistrationKind, Some(user))
    {
      hide AfterConsume, Continue, Apply, ConsumeResult, AfterEnrolmentConsumed;
      ContinueThree(site, w, ConsumeEnrolment(tid, session, id, user, answer, consumedAt),
          VerifyEnrolment(tid, verifiedAt), InsertStep(tid));
      ghost var w1 := Apply(site, w, ConsumeEnrolment(tid, session, id, user, answer, consumedAt));
      EnrolmentConsumeMoves(site, w, tid, session, id, user, answer, consumedAt);
      var consumed := ceremonies.Consume(id, session, RegistrationKind, Some(user), consumedAt);
      if consumed.Err? {
        FinishedEnrolmentStays(site, w1, tid, verifiedAt);
        return Some(StoreFailed(consumed.error));
      }
      var thread := AfterEnrolmentConsumed(site, consumed.value, answer);
      if !thread.Enrolling? {
        FinishedEnrolmentStays(site, w1, tid, verifiedAt);
        return Some(BadState);
      }
      r := CompleteEnrolment(thread.enrolment, thread.answer, verifiedAt, w1, tid);
    }
  }

  lemma FinishedEnrolmentStays(site: Site, w: World, tid: nat, verifiedAt: Time)
    requires tid in w.threads && w.threads[tid].Finished?
    ensures Apply(site, Apply(site, w, VerifyEnrolment(tid, verifiedAt)), InsertStep(tid)) == w
  {}

  /** A write succeeds exactly when the rows change: an update always advances a version, an insert adds a row. */
  lemma UpdateShows(rows: Rows, storable: Storable, u: CredentialUpdate, version: nat)
    ensures UpdateFault(rows, storable, u, version).Some? <==> AfterUpdate(rows, storable, u, version) == rows
  {
    hide ApplyTo;
    if UpdateFault(rows, storable, u, version).None? {
      assert AfterUpdate(rows, storable, u, version)[u.id].version == version + 1;
    }
  }

  lemma InsertShows(rows: Rows, storable: Storable, c: CredentialRecord)
    ensures InsertFault(rows, storable, c).Some? <==> AfterInsert(rows, storable, c) == rows
  {
    hide ValidRecord;
    if InsertFault(rows, storable, c).None? {
      assert c.id in AfterInsert(rows, storable, c);
    }
  }

  /** A refused consume ends the request; the entry is gone exactly when it had expired. */
  lemma RefusedConsume(w: World, tid: nat, id: string, session: string, kind: CeremonyKind, account: Option<seq<byte>>,
                       now: Time, next: SavedCeremony -> Thread)
    requires ConsumeResult(w.ceremonies, id, session, kind, account, now).Err?
    ensures var w' := DoConsume(w, tid, id, session, kind, account, now, next);
            && w'.threads == w.threads[tid := Finished] && w'.rows == w.rows && w'.sessions == w.sessions
            && w'.ceremonies == AfterConsume(w.ceremonies, id, session, kind, account)
  {}

  /** What changes between two worlds when only one thread moves. */
  predicate OnlyThread(w: World, w': World, tid: nat, t: Thread) {
    w'.rows == w.rows && w'.sessions == w.sessions && w'.ceremonies == w.ceremonies && w'.threads == w.threads[tid := t]
  }

  lemma AcceptedVerifies(site: Site, q: FinishRequest)
    ensures LoginAccepted(site, q) ==> site.verify(q).Some?
  {}

  lemma VerifyMoves(site: Site, w: World, tid: nat, now: Time)
    requires tid in w.threads && w.threads[tid].Holding?
    ensures var t := w.threads[tid];
            var q := FinishRequest(t.state, t.response, t.row.record, false, now);
            OnlyThread(w, Apply(site, w, VerifyStep(tid, now)), tid,
                       if LoginAccepted(site, q) then Checked(q, UpdateFor(q.credential, LoginNext(site, q)),
                           t.row.version) else Finished)
  {
    hide LoginAccepted, LoginNext, UpdateFor;
  }

  lemma UpdateMoves(site: Site, w: World, tid: nat)
    requires tid in w.threads && (w.threads[tid].Checked? || w.threads[tid].Finished?)
    ensures var t, w' := w.threads[tid], Apply(site, w, UpdateStep(tid));
            if t.Finished? || UpdateFault(w.rows, site.storable, t.update, t.version).Some?
                then OnlyThread(w, w', tid, Finished)
            else OnlyThread(w.(rows := AfterUpdate(w.rows, site.storable, t.update, t.version)), w', tid,
                Committed(t.q.credential.user))
  {
    hide UpdateFault, AfterUpdate;
  }

  lemma OpenMoves(site: Site, w: World, tid: nat, sid: string)
    requires tid in w.threads && (w.threads[tid].Committed? || w.threads[tid].Finished?)
    ensures var t, w' := w.threads[tid], Apply(site, w, OpenStep(tid, sid));
            if t.Finished? then OnlyThread(w, w', tid, Finished)
            else OnlyThread(w.(sessions := w.sessions[sid := t.user]), w', tid, Finished)
  {}

  lemma EnrolmentConsumeMoves(site: Site, w: World, tid: nat, session: string, id: string, user: seq<byte>,
                              answer: Option<Registration.RegistrationResponse>, now: Time)
    requires tid !in w.threads
    ensures OnlyThread(w.(ceremonies := AfterConsume(w.ceremonies, id, session, RegistrationKind, Some(user))),
                       Apply(site, w, ConsumeEnrolment(tid, session, id, user, answer, now)), tid,
                       match ConsumeResult(w.ceremonies, id, session, RegistrationKind, Some(user), now)
                       case Ok(saved) => AfterEnrolmentConsumed(site, saved, answer)
                       case Err(_) => Finished)
    ensures forall saved :: AfterEnrolmentConsumed(site, saved, answer).Enrolling?
              || AfterEnrolmentConsumed(site, saved, answer).Finished?
  {
    AfterConsumed(site, None, answer);
    hide AfterEnrolmentConsumed;
    if ConsumeResult(w.ceremonies, id, session, RegistrationKind, Some(user), now).Err? {
      RefusedConsume(w, tid, id, session, RegistrationKind, Some(user), now,
          saved => AfterEnrolmentConsumed(site, saved, answer));
    }
  }

  lemma EnrolmentVerifyMoves(site: Site, w: World, tid: nat, now: Time)
    requires tid in w.threads && (w.threads[tid].Enrolling? || w.threads[tid].Finished?)
    ensures var t := w.threads[tid];
            OnlyThread(w, Apply(site, w, VerifyEnrolment(tid, now)), tid,
                       if t.Finished? || site.enrol(Registration.RegistrationFinish(t.enrolment, t.answer,
                           now)).None? then Finished
                       else EnrolmentChecked(site.enrol(Registration.RegistrationFinish(t.enrolment, t.answer,
                           now)).value))
  {
    hide LoginAccepted;
  }

  lemma InsertMoves(site: Site, w: World, tid: nat)
    requires tid in w.threads && (w.threads[tid].EnrolmentChecked? || w.threads[tid].Finished?)
    ensures var t := w.threads[tid];
            OnlyThread(if t.Finished? then w else w.(rows := AfterInsert(w.rows, site.storable, t.record)),
                       Apply(site, w, InsertStep(tid)), tid, Finished)
  {}

  lemma LookupMoves(site: Site, w: World, tid: nat)
    requires tid in w.threads && w.threads[tid].Consuming?
    ensures var t := w.threads[tid];
            OnlyThread(w, Apply(site, w, LookupStep(tid)), tid,
                       match LookupResult(w.rows, t.response.rawId, LookupUser(t.state, t.response))
                       case Ok(row) => Holding(t.state, t.response, row)
                       case Err(_) => Finished)
  {
    hide LoginAccepted;
  }

  /** A login that is accepted on a row nobody has written since its lookup commits and opens its session. */
  lemma UncontendedLoginOpens(site: Site, w: World, tid: nat, verifiedAt: Time, sid: string)
    requires Sound(site) && tid in w.threads && w.threads[tid].Holding?
    requires w.threads[tid].response.rawId in w.rows && w.rows[w.threads[tid].response.rawId] == w.threads[tid].row
    requires w.threads[tid].row.version != MAX_VERSION
    requires var t := w.threads[tid];
             var q := FinishRequest(t.state, t.response, t.row.record, false, verifiedAt);
             LoginAccepted(site, q) && site.storable(LoginNext(site, q))
    ensures var t := w.threads[tid];
            var q := FinishRequest(t.state, t.response, t.row.record, false, verifiedAt);
            var w' := Continue(site, w, [VerifyStep(tid, verifiedAt), UpdateStep(tid), OpenStep(tid, sid)]);
            && w'.sessions == w.sessions[sid := t.row.record.user]
            && w'.rows == w.rows[t.response.rawId := Row(LoginNext(site, q), t.row.version + 1)]
            && w'.ceremonies == w.ceremonies
  {
    hide Sound, LoginAccepted, LoginNext, UpdateFor, UpdateFault, AfterUpdate, Apply, Continue;
    ContinueThree(site, w, VerifyStep(tid, verifiedAt), UpdateStep(tid), OpenStep(tid, sid));
    var w1 := Apply(site, w, VerifyStep(tid, verifiedAt));
    VerifyMoves(site, w, tid, verifiedAt);
    UpdateMeetsCurrentRow(site, w1, w1.threads[tid]);
    UpdateMoves(site, w1, tid);
    OpenMoves(site, Apply(site, w1, UpdateStep(tid)), tid, sid);
  }
}
