// Runs that reach what the run-level theorems speak about: an enrolment, then two interleaved logins with
// the same credential, of which one commits and opens a session and the other loses the race.
module LoginExample {
  import opened Base
  import opened Ceremonies
  import opened Credentials
  import opened RelyingParty
  import opened Authentication
  import opened Stores
  import opened Logins
  import opened Application
  import Registration

  /** A registration, and a login with the credential that it yields. */
  datatype Scene = Scene(e: Registration.RegistrationFinish, q: FinishRequest)

  /** The site stores and reads both ceremonies and accepts both responses. */
  ghost predicate Serves(site: Site, s: Scene) {
    && site.readRegistration([0]) == Some(s.e.state) && site.readAuthentication([1]) == Some(s.q.state)
    && site.enrol(s.e) == Some(s.q.credential) && s.e.now < s.e.state.expiresAt
    && s.e.state.user == s.q.state.expectedUser == s.q.credential.user
    && LoginAccepted(site, s.q) && !s.q.uvAuthorized
    && site.storable(s.q.credential) && site.storable(LoginNext(site, s.q))
  }

  function EnrolmentCeremony(s: Scene): SavedCeremony {
    SavedCeremony(RegistrationKind, "b", s.e.state.user, s.e.state.expiresAt, [0])
  }

  function LoginCeremony(s: Scene): SavedCeremony {
    SavedCeremony(AuthenticationKind, "b", s.q.state.expectedUser, s.q.state.expiresAt, [1])
  }

  // ----- The steps -----

  function EnrolmentRun(s: Scene): seq<Step> {
    [SaveStep("e", EnrolmentCeremony(s), s.e.now),
     ConsumeEnrolment(0, "b", "e", s.e.state.user, Some(s.e.response), s.e.now),
     VerifyEnrolment(0, s.e.now), InsertStep(0)]
  }

  function ConsumeRun(s: Scene): seq<Step> {
    var body := Some(s.q.response);
    [SaveStep("l", LoginCeremony(s), s.q.now), ConsumeLogin(1, "b", "l", body, s.q.now),
     SaveStep("m", LoginCeremony(s), s.q.now), ConsumeLogin(2, "b", "m", body, s.q.now)]
  }

  /** Both logins look the credential up and verify before either writes. */
  function VerifyRun(s: Scene): seq<Step> {
    [LookupStep(1), LookupStep(2), VerifyStep(1, s.q.now), VerifyStep(2, s.q.now)]
  }

  function WriteRun(): seq<Step> { [UpdateStep(1), UpdateStep(2), OpenStep(1, "s"), OpenStep(2, "t")] }

  function RaceRun(s: Scene): seq<Step> { EnrolmentRun(s) + ConsumeRun(s) + VerifyRun(s) + WriteRun() }

  // ----- Where they lead -----

  function Enrolment(s: Scene): World {
    World(map[], map[s.q.credential.id := Row(s.q.credential, 1)], map[], map[0 := Finished],
          [Saved("e", EnrolmentCeremony(s)), Consumed(0, "e", "b", EnrolmentCeremony(s), s.e.now),
           Enrolled(0, s.q.credential)], 0)
  }

  /** Both logins at the same place. */
  function Both(t: Thread): map<nat, Thread> { map[0 := Finished, 1 := t, 2 := t] }

  function Consumption(s: Scene): World {
    var w := Enrolment(s);
    w.(threads := Both(Consuming(s.q.state, s.q.response)),
       history := w.history + [Saved("l", LoginCeremony(s)), Consumed(1, "l", "b", LoginCeremony(s), s.q.now),
                               Saved("m", LoginCeremony(s)), Consumed(2, "m", "b", LoginCeremony(s), s.q.now)])
  }

  function Verified(site: Site, s: Scene): World
    requires site.verify(s.q).Some?
  {
    Consumption(s).(threads := Both(Checked(s.q, UpdateFor(s.q.credential, LoginNext(site, s.q)), 1)))
  }

  /** One committed login, one session, and nothing left of the other. */
  function Final(site: Site, s: Scene): World
    requires site.verify(s.q).Some?
  {
    var w := Consumption(s);
    w.(rows := map[s.q.credential.id := Row(LoginNext(site, s.q), 2)], sessions := map["s" := s.q.credential.user],
       threads := Both(Finished),
       history := w.history + [LoggedIn(1, s.q), Opened(1, "s", s.q.credential.user)])
  }

  // ----- The run -----

  lemma ContinueFour(site: Site, w: World, steps: seq<Step>)
    requires |steps| == 4
    ensures Continue(site, w, steps)
         == Apply(site, Apply(site, Apply(site, Apply(site, w, steps[0]), steps[1]), steps[2]), steps[3])
  {
    hide Apply;
    assert steps[1..] == [steps[1], steps[2], steps[3]];
    ContinueThree(site, Apply(site, w, steps[0]), steps[1], steps[2], steps[3]);
  }

  /** With no ceremony stored, a save and the consume that follows it succeed. */
  lemma SaveAndTake(id: string, saved: SavedCeremony, now: Time)
    requires id != "" && saved.session == "b" && now < saved.expires
    ensures CanSave(map[], id, saved, now) && AfterSave(map[], id, saved, now) == map[id := saved]
    ensures |Live(map[], now)| == 0
    ensures forall account: Option<seq<byte>> :: (account.Some? ==> account.value == saved.account) ==>
              && ConsumeResult(map[id := saved], id, "b", saved.kind, account, now) == Ok(saved)
              && AfterConsume(map[id := saved], id, "b", saved.kind, account) == map[]
  {}

  /** Saving an enrolment ceremony and consuming it at once starts an enrolment. */
  lemma StartsEnrolment(site: Site, s: Scene, w: World, tid: nat, id: string)
    requires Serves(site, s) && w.ceremonies == map[] && tid !in w.threads && id != ""
    ensures Apply(site, Apply(site, w, SaveStep(id, EnrolmentCeremony(s), s.e.now)),
                  ConsumeEnrolment(tid, "b", id, s.e.state.user, Some(s.e.response), s.e.now))
         == w.(threads := w.threads[tid := Enrolling(s.e.state, s.e.response)],
               history := w.history + [Saved(id, EnrolmentCeremony(s)),
                                       Consumed(tid, id, "b", EnrolmentCeremony(s), s.e.now)])
  {
    hide Live, CanSave, AfterSave, ConsumeResult, AfterConsume, LoginAccepted, LoginNext;
    var saved := EnrolmentCeremony(s);
    SaveAndTake(id, saved, s.e.now);
    var w1 := Apply(site, w, SaveStep(id, saved, s.e.now));
    assert w1 == w.(ceremonies := map[id := saved], history := w.history + [Saved(id, saved)]);
  }

  /** A verified enrolment inserts its record. */
  lemma Inserts(site: Site, s: Scene, w: World, tid: nat)
    requires Sound(site) && Serves(site, s) && s.q.credential.id !in w.rows
    requires tid in w.threads && w.threads[tid] == Enrolling(s.e.state, s.e.response)
    ensures Apply(site, Apply(site, w, VerifyEnrolment(tid, s.e.now)), InsertStep(tid))
         == w.(rows := w.rows[s.q.credential.id := Row(s.q.credential, 1)], threads := w.threads[tid := Finished],
               history := w.history + [Enrolled(tid, s.q.credential)])
  {
    hide LoginAccepted, LoginNext, ValidRecord, Bound;
    assert s.e == Registration.RegistrationFinish(s.e.state, s.e.response, s.e.now);
    var w1 := Apply(site, w, VerifyEnrolment(tid, s.e.now));
    assert w1 == WithThread(w, tid, EnrolmentChecked(s.q.credential));
  }

  lemma Enrols(site: Site, s: Scene)
    requires Sound(site) && Serves(site, s)
    ensures Continue(site, START, EnrolmentRun(s)) == Enrolment(s)
  {
    hide Sound, Serves, Apply, Continue;
    ContinueFour(site, START, EnrolmentRun(s));
    StartsEnrolment(site, s, START, 0, "e");
    Inserts(site, s, Apply(site, Apply(site, START, EnrolmentRun(s)[0]), EnrolmentRun(s)[1]), 0);
  }

  /** Saving a login ceremony and consuming it at once starts a login. */
  lemma Consumes(site: Site, s: Scene, w: World, tid: nat, id: string)
    requires Serves(site, s) && s.q.now < s.q.state.expiresAt && s.q.credential.user != []
    requires w.ceremonies == map[] && tid !in w.threads && id != ""
    ensures Apply(site, Apply(site, w, SaveStep(id, LoginCeremony(s), s.q.now)),
                  ConsumeLogin(tid, "b", id, Some(s.q.response), s.q.now))
         == w.(threads := w.threads[tid := Consuming(s.q.state, s.q.response)],
               history := w.history + [Saved(id, LoginCeremony(s)),
                                       Consumed(tid, id, "b", LoginCeremony(s), s.q.now)])
  {
    hide Live, CanSave, AfterSave, ConsumeResult, AfterConsume, LoginAccepted, LoginNext;
    var saved := LoginCeremony(s);
    SaveAndTake(id, saved, s.q.now);
    var w1 := Apply(site, w, SaveStep(id, saved, s.q.now));
    assert w1 == w.(ceremonies := map[id := saved], history := w.history + [Saved(id, saved)]);
  }

  lemma BothConsume(site: Site, s: Scene)
    requires Serves(site, s) && s.q.now < s.q.state.expiresAt && s.q.credential.user != []
    ensures Continue(site, Enrolment(s), ConsumeRun(s)) == Consumption(s)
  {
    hide Serves, Apply, Continue;
    ContinueFour(site, Enrolment(s), ConsumeRun(s));
    var w := Enrolment(s);
    Consumes(site, s, w, 1, "l");
    var w' := Apply(site, Apply(site, w, ConsumeRun(s)[0]), ConsumeRun(s)[1]);
    Consumes(site, s, w', 2, "m");
  }

  lemma LooksUp(site: Site, s: Scene, w: World, tid: nat)
    requires tid in w.threads && w.threads[tid] == Consuming(s.q.state, s.q.response)
    requires s.q.state.expectedUser == s.q.credential.user != [] && s.q.response.rawId == s.q.credential.id
    requires w.rows == map[s.q.credential.id := Row(s.q.credential, 1)]
    ensures Apply(site, w, LookupStep(tid))
         == WithThread(w, tid, Holding(s.q.state, s.q.response, Row(s.q.credential, 1)))
  {
    hide LoginAccepted, LoginNext, UpdateFor;
  }

  lemma Verifies(site: Site, s: Scene, w: World, tid: nat)
    requires tid in w.threads && w.threads[tid] == Holding(s.q.state, s.q.response, Row(s.q.credential, 1))
    requires LoginAccepted(site, s.q) && !s.q.uvAuthorized
    ensures Apply(site, w, VerifyStep(tid, s.q.now))
         == WithThread(w, tid, Checked(s.q, UpdateFor(s.q.credential, LoginNext(site, s.q)), 1))
  {
    hide LoginAccepted, LoginNext, UpdateFor;
    assert FinishRequest(s.q.state, s.q.response, s.q.credential, false, s.q.now) == s.q;
  }

  lemma BothVerify(site: Site, s: Scene)
    requires Serves(site, s) && s.q.response.rawId == s.q.credential.id && s.q.credential.user != []
    requires site.verify(s.q).Some?
    ensures Continue(site, Consumption(s), VerifyRun(s)) == Verified(site, s)
  {
    hide LoginNext, LoginAccepted, UpdateFor, Continue, Apply;
    var w, steps := Consumption(s), VerifyRun(s);
    ContinueFour(site, w, steps);
    LooksUp(site, s, w, 1);
    var w1 := Apply(site, w, steps[0]);
    LooksUp(site, s, w1, 2);
    var w2 := Apply(site, w1, steps[1]);
    Verifies(site, s, w2, 1);
    Verifies(site, s, Apply(site, w2, steps[2]), 2);
  }

  /** The first update finds the row at the version it was verified against. */
  lemma Commits(site: Site, s: Scene, w: World, tid: nat)
    requires Sound(site) && Serves(site, s) && w.rows == map[s.q.credential.id := Row(s.q.credential, 1)]
    requires tid in w.threads
    requires w.threads[tid] == Checked(s.q, UpdateFor(s.q.credential, LoginNext(site, s.q)), 1)
    ensures Apply(site, w, UpdateStep(tid))
         == w.(rows := map[s.q.credential.id := Row(LoginNext(site, s.q), 2)],
               threads := w.threads[tid := Committed(s.q.credential.user)],
               history := w.history + [LoggedIn(tid, s.q)])
    ensures w.threads[tid].update.id == s.q.credential.id
  {
    hide Sound, LoginNext, ApplyTo, LoginAccepted;
    LoginAdvances(site, s.q);
  }

  /** An update that finds another version ends its request. */
  lemma Loses(site: Site, w: World, tid: nat)
    requires tid in w.threads && w.threads[tid].Checked?
    requires var t := w.threads[tid]; t.update.id in w.rows && w.rows[t.update.id].version != t.version
    ensures Apply(site, w, UpdateStep(tid)) == WithThread(w, tid, Finished)
  {
    hide ApplyTo;
  }

  lemma OneCommits(site: Site, s: Scene)
    requires Sound(site) && Serves(site, s) && site.verify(s.q).Some?
    ensures Continue(site, Verified(site, s), WriteRun()) == Final(site, s)
  {
    hide Sound, Serves, LoginNext, Continue, DoUpdate, LocalMove, DoSave, DoConsume, DoInsert;
    var w, steps := Verified(site, s), WriteRun();
    ContinueFour(site, w, steps);
    Commits(site, s, w, 1);
    var w1 := Apply(site, w, steps[0]);
    Loses(site, w1, 2);
  }

  /** For every accepted registration and login of a sound site, both requests verify against the same version of the
      credential, one of them commits and opens a session, and the other one does neither. */
  lemma RaceOpensOneSession(site: Site, s: Scene)
    requires Sound(site) && Serves(site, s)
    ensures site.verify(s.q).Some? && Run(site, RaceRun(s)) == Final(site, s)
  {
    hide Serves, Apply, Run, Continue, LoginNext, LoginAccepted, UpdateFor, Verified, Final, Consumption, Enrolment,
      EnrolmentRun, ConsumeRun, VerifyRun, WriteRun;
    Accepted(site, s);
    var a, b, c := EnrolmentRun(s), ConsumeRun(s), VerifyRun(s);
    RunThenContinue(site, [], a);
    assert [] + a == a;
    RunStarts(site);
    Enrols(site, s);
    RunThenContinue(site, a, b);
    BothConsume(site, s);
    RunThenContinue(site, a + b, c);
    BothVerify(site, s);
    RunThenContinue(site, a + b + c, WriteRun());
    OneCommits(site, s);
  }

  lemma RunStarts(site: Site)
    ensures Run(site, []) == START
  {}

  lemma Accepted(site: Site, s: Scene)
    requires Sound(site) && Serves(site, s)
    ensures site.verify(s.q).Some? && s.q.response.rawId == s.q.credential.id && s.q.credential.user != []
    ensures s.q.now < s.q.state.expiresAt
  {
    hide CompareCounters;
    assert Bound(s.q, site.verify(s.q).value);
  }

  // ----- Such sites exist -----

  function ExampleGiven(): Given {
    Given(ExampleOutside(), ExampleCrypto(), Registration.ExampleVerifiers(), ExampleParty(),
          OutputPolicy(true, true, ""), Registration.OutputPolicy(true, true))
  }

  function ExampleScene(): Scene { Scene(Registration.ExampleFinish(), ExampleRequest()) }

  lemma EnrolledIsExample()
    ensures Registration.RecordFor(Registration.ExampleFinish(), Registration.ExampleFields(), NoneType)
         == ExampleRequest().credential
  {}

  lemma ExampleVerifies()
    ensures VerifiedData(ExampleOutside(), ExampleCrypto(), ExampleParty(), OutputPolicy(true, true, ""),
                         ExampleRequest()) == Some(ExampleData())
  {
    hide PartyFault, EvidenceOf;
    SomeRequestIsAccepted();
    ExampleEvidence();
  }

  /** The assertion's counter is ahead of the record's, and it reports no verification. */
  lemma ExampleIsAccepted(site: Site)
    requires site.verify(ExampleRequest()) == Some(ExampleData())
    ensures LoginAccepted(site, ExampleRequest())
  {}

  /** A party's site, with its verified finish functions, on which the race takes place. */
  lemma SomeSiteServes() returns (site: Site)
    ensures Genuine(site, ExampleGiven()) && Sound(site) && Serves(site, ExampleScene())
  {
    hide VerifiedData, Registration.PartyRegistration, Registration.FinishedRegistration, Sound, LoginAccepted,
      LoginNext, Registration.RecordFor;
    var g := ExampleGiven();
    site := GenuineSite(g, c => true, data => Some(ExampleRequest().state),
                        data => Some(Registration.ExampleFinish().state));
    GenuineIsSound(site, g);
    Registration.SomeRegistrationIsAccepted();
    EnrolledIsExample();
    ExampleVerifies();
    ExampleIsAccepted(site);
  }
}
