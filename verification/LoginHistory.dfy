// What holds of the credentials in every run, proved on serial runs and carried over to all
// interleavings by serializability.
module LoginHistory {
  import opened Base
  import opened AuthenticatorData
  import opened Credentials
  import opened Authentication
  import opened Stores
  import opened Logins

  /** The counters a credential has shown: at enrolment, then at each committed login. */
  function CountHistory(history: seq<Event>, id: seq<byte>): seq<nat> {
    if history == [] then []
    else
      var earlier, e := CountHistory(history[..|history| - 1], id), history[|history| - 1];
      if e.Enrolled? && e.record.id == id then earlier + [e.record.signCount]
      else if e.LoggedIn? && e.q.response.rawId == id then earlier + [AssertedCount(e.q.response)]
      else earlier
  }

  /** A block of zeros, then strictly increasing numbers. */
  predicate ZerosThenIncreasing(counts: seq<nat>) {
    forall i, j :: 0 <= i < j < |counts| ==> counts[i] < counts[j] || counts[i] == counts[j] == 0
  }

  /** The record a credential was enrolled with. */
  function EnrolledAs(history: seq<Event>, id: seq<byte>): Option<CredentialRecord> {
    if history == [] then None
    else
      var e := history[|history| - 1];
      if e.Enrolled? && e.record.id == id then Some(e.record) else EnrolledAs(history[..|history| - 1], id)
  }

  /** One row against the history that produced it. */
  predicate RowFits(history: seq<Event>, id: seq<byte>, row: Row) {
    var counts := CountHistory(history, id);
    && ValidRecord(row.record) && row.record.id == id
    && counts != [] && ZerosThenIncreasing(counts)
    && counts[|counts| - 1] == row.record.signCount
    && row.version == |counts| && row.version <= MAX_VERSION
    && EnrolledAs(history, id).Some?
    && Advances(EnrolledAs(history, id).value, row.record, false)
    && row.record.uvInitialized == EnrolledAs(history, id).value.uvInitialized
  }

  ghost predicate RowsFit(history: seq<Event>, rows: Rows) {
    && (forall id :: id in rows ==> RowFits(history, id, rows[id]))
    && (forall id :: id !in rows ==> CountHistory(history, id) == [] && EnrolledAs(history, id).None?)
  }

  lemma OneMoreEvent(history: seq<Event>, e: Event, id: seq<byte>)
    ensures CountHistory(history + [e], id) ==
            CountHistory(history, id)
            + (if e.Enrolled? && e.record.id == id then [e.record.signCount]
               else if e.LoggedIn? && e.q.response.rawId == id then [AssertedCount(e.q.response)] else [])
    ensures EnrolledAs(history + [e], id) == if e.Enrolled? && e.record.id == id then Some(e.record)
              else EnrolledAs(history, id)
  {
    hide AssertedCount;
    assert (history + [e])[..|history|] == history;
  }

  /** Appending a counter above the last one, or a zero after zeros. */
  lemma CountAppended(counts: seq<nat>, next: nat)
    requires ZerosThenIncreasing(counts) && counts != []
    requires counts[|counts| - 1] < next || counts[|counts| - 1] == next == 0
    ensures ZerosThenIncreasing(counts + [next])
  {
    var all, last := counts + [next], |counts| - 1;
    forall i, j | 0 <= i < j < |all| ensures all[i] < all[j] || all[i] == all[j] == 0 {
      if j == |counts| && i < last { assert counts[i] < counts[last] || counts[i] == counts[last] == 0; }
    }
  }

  lemma SameRowFits(before: seq<Event>, after: seq<Event>, id: seq<byte>, row: Row)
    requires RowFits(before, id, row)
    requires CountHistory(after, id) == CountHistory(before, id) && EnrolledAs(after, id) == EnrolledAs(before, id)
    ensures RowFits(after, id, row)
  {
    hide CountHistory, EnrolledAs, ValidRecord, Advances, ZerosThenIncreasing;
  }

  /** An event about one credential leaves the others as they were. */
  lemma OthersFit(history: seq<Event>, e: Event, rows: Rows, touched: seq<byte>)
    requires RowsFit(history, rows)
    requires e.Enrolled? ==> e.record.id == touched
    requires e.LoggedIn? ==> e.q.response.rawId == touched
    ensures forall id :: id in rows && id != touched ==> RowFits(history + [e], id, rows[id])
    ensures forall id :: id !in rows && id != touched ==>
              CountHistory(history + [e], id) == [] && EnrolledAs(history + [e], id).None?
  {
    hide RowFits, CountHistory, EnrolledAs, AssertedCount;
    forall id | id != touched
      ensures CountHistory(history + [e], id) == CountHistory(history, id)
                && EnrolledAs(history + [e], id) == EnrolledAs(history, id)
    {
      OneMoreEvent(history, e, id);
      assert CountHistory(history, id) + [] == CountHistory(history, id);
    }
    forall id | id in rows && id != touched ensures RowFits(history + [e], id, rows[id]) {
      SameRowFits(history, history + [e], id, rows[id]);
    }
  }

  lemma LoginRowFits(site: Site, history: seq<Event>, row: Row, tid: nat, q: FinishRequest)
    requires Sound(site) && RowFits(history, q.response.rawId, row) && !q.uvAuthorized && row.version != MAX_VERSION
    requires LoginAccepted(site, q.(credential := row.record))
    ensures RowFits(history + [LoggedIn(tid, q)], q.response.rawId,
              Row(LoginNext(site, q.(credential := row.record)), row.version + 1))
  {
    hide Sound, LoginNext, AssertedCount, ValidRecord, Advances, ApplyTo, ZerosThenIncreasing, CountHistory,
      EnrolledAs, UserVerified, UpdateFor;
    var id, current := q.response.rawId, q.(credential := row.record);
    LoginAdvances(site, current);
    NextIsValid(site, current);
    AdvancesTransitive(EnrolledAs(history, id).value, row.record, LoginNext(site, current), false);
    OneMoreEvent(history, LoggedIn(tid, q), id);
    CountAppended(CountHistory(history, id), AssertedCount(q.response));
  }

  lemma NextIsValid(site: Site, q: FinishRequest)
    requires Sound(site) && LoginAccepted(site, q) && !q.uvAuthorized
    ensures ValidRecord(LoginNext(site, q)) && LoginNext(site, q).id == q.credential.id
  {
    hide Sound, LoginAccepted, LoginNext, ValidRecord, AssertedCount, UpdateFor, Expects, Assigned;
    LoginAdvances(site, q);
  }

  lemma LoginFits(site: Site, history: seq<Event>, s: Serial, tid: nat, q: FinishRequest)
    requires Sound(site) && RowsFit(history, s.rows) && SerialStep(site, s, LoggedIn(tid, q)).Some?
    ensures RowsFit(history + [LoggedIn(tid, q)], SerialStep(site, s, LoggedIn(tid, q)).value.rows)
  {
    hide Sound, LoginNext, RowFits, CountHistory, EnrolledAs, UserVerified, CompareCounters;
    LoginRowFits(site, history, s.rows[q.response.rawId], tid, q);
    OthersFit(history, LoggedIn(tid, q), s.rows, q.response.rawId);
  }

  lemma EnrolledRowFits(history: seq<Event>, tid: nat, record: CredentialRecord)
    requires ValidRecord(record) && CountHistory(history, record.id) == []
    ensures RowFits(history + [Enrolled(tid, record)], record.id, Row(record, 1))
  {
    hide ValidRecord, CountHistory, EnrolledAs;
    OneMoreEvent(history, Enrolled(tid, record), record.id);
  }

  lemma EnrolmentFits(site: Site, history: seq<Event>, s: Serial, tid: nat, record: CredentialRecord)
    requires RowsFit(history, s.rows) && SerialStep(site, s, Enrolled(tid, record)).Some?
    ensures RowsFit(history + [Enrolled(tid, record)], SerialStep(site, s, Enrolled(tid, record)).value.rows)
  {
    hide ValidRecord, RowFits, CountHistory, EnrolledAs;
    EnrolledRowFits(history, tid, record);
    OthersFit(history, Enrolled(tid, record), s.rows, record.id);
  }

  lemma OtherEventFits(site: Site, history: seq<Event>, s: Serial, e: Event)
    requires RowsFit(history, s.rows) && SerialStep(site, s, e).Some? && !e.Enrolled? && !e.LoggedIn?
    ensures RowsFit(history + [e], SerialStep(site, s, e).value.rows)
  {
    hide RowFits, CountHistory, EnrolledAs;
    // Twice, excepting different ids, so that no credential is left out.
    OthersFit(history, e, s.rows, []);
    OthersFit(history, e, s.rows, [0]);
  }

  lemma {:induction false} SerialRowsFit(site: Site, history: seq<Event>)
    requires Sound(site) && Replay(site, history).Some?
    ensures RowsFit(history, Replay(site, history).value.rows)
  {
    hide Sound, RowsFit, SerialStep;
    if history == [] {
      NothingFits();
    } else {
      var before, e := history[..|history| - 1], history[|history| - 1];
      SerialRowsFit(site, before);
      var s := Replay(site, before).value;
      assert before + [e] == history;
      match e
      case LoggedIn(tid, q) => LoginFits(site, before, s, tid, q);
      case Enrolled(tid, record) => EnrolmentFits(site, before, s, tid, record);
      case _ => OtherEventFits(site, before, s, e);
    }
  }

  lemma NothingFits()
    ensures RowsFit([], map[])
  {}

  /** In every run and for every credential: the row is valid and was enrolled under its own id; its identity, key,
      owner and backup eligibility are those of the enrolment; its UV initialization never changed and a known
      attachment was never cleared; the counters it showed are zeros followed by strictly increasing numbers, the
      stored counter is the last of them, and the version counts them. */
  lemma RowsOfEveryRun(site: Site, steps: seq<Step>, id: seq<byte>)
    requires Sound(site)
    ensures var w := Run(site, steps);
            if id in w.rows then RowFits(w.history, id, w.rows[id]) else CountHistory(w.history, id) == []
  {
    hide Sound, Run, Replay, RowFits;
    RunsAreSerializable(site, steps);
    SerialRowsFit(site, Run(site, steps).history);
  }

  // ----- Sessions -----

  /** Every session in the store was opened for the user it names. */
  lemma {:induction false} SessionsWereOpened(site: Site, history: seq<Event>, sid: string)
    requires Replay(site, history).Some? && sid in Replay(site, history).value.sessions
    ensures exists tid :: Opened(tid, sid, Replay(site, history).value.sessions[sid]) in history
  {
    hide LoginAccepted, LoginNext;
    var before, e := history[..|history| - 1], history[|history| - 1];
    if e.Opened? && e.sid == sid {
      assert e in history;
    } else {
      SessionsWereOpened(site, before, sid);
      var tid :| Opened(tid, sid, Replay(site, before).value.sessions[sid]) in before;
      assert Opened(tid, sid, Replay(site, history).value.sessions[sid]) in history;
    }
  }
}
