// Ceremonies are used at most once, and none is lost or duplicated, in every run.
module CeremonyUse {
  import opened Base
  import opened Ceremonies
  import opened Stores
  import opened Logins

  predicate About(e: Event, id: string) { (e.Saved? && e.id == id) || (e.Consumed? && e.id == id) }

  /** The saves and consumptions under one ceremony id. */
  function Uses(history: seq<Event>, id: string): seq<Event> {
    if history == [] then []
    else
      var earlier, e := Uses(history[..|history| - 1], id), history[|history| - 1];
      if About(e, id) then earlier + [e] else earlier
  }

  lemma UsesOneMore(history: seq<Event>, e: Event, id: string)
    ensures Uses(history + [e], id) == if About(e, id) then Uses(history, id) + [e] else Uses(history, id)
  {
    assert (history + [e])[..|history|] == history;
  }

  /** Every consumption comes directly after the save whose ceremony it takes. */
  predicate SingleUse(uses: seq<Event>, id: string) {
    forall k :: 0 <= k < |uses| && uses[k].Consumed? ==> k > 0 && uses[k - 1] == Saved(id, uses[k].ceremony)
  }

  predicate LastSaved(uses: seq<Event>, id: string, saved: SavedCeremony) {
    uses != [] && uses[|uses| - 1] == Saved(id, saved)
  }

  function Saves(history: seq<Event>): nat {
    if history == [] then 0 else Saves(history[..|history| - 1]) + (if history[|history| - 1].Saved? then 1 else 0)
  }

  function Consumptions(history: seq<Event>): nat {
    if history == [] then 0
    else Consumptions(history[..|history| - 1]) + (if history[|history| - 1].Consumed? then 1 else 0)
  }

  lemma CountOneMore(history: seq<Event>, e: Event)
    ensures Saves(history + [e]) == Saves(history) + (if e.Saved? then 1 else 0)
    ensures Consumptions(history + [e]) == Consumptions(history) + (if e.Consumed? then 1 else 0)
  {
    assert (history + [e])[..|history|] == history;
  }

  predicate Conserved(w: World) {
    && Saves(w.history) == |w.ceremonies| + Consumptions(w.history) + w.dropped
    && |w.ceremonies| <= MAX_LIVE
  }

  ghost predicate UsesFit(w: World) {
    && (forall id :: SingleUse(Uses(w.history, id), id))
    && (forall id :: id in w.ceremonies ==> LastSaved(Uses(w.history, id), id, w.ceremonies[id]))
  }

  lemma SaveConserves(w: World, id: string, saved: SavedCeremony, now: Time)
    requires Conserved(w)
    ensures Conserved(DoSave(w, id, saved, now))
  {
    hide Live, Saves, Consumptions;
    CountOneMore(w.history, Saved(id, saved));
  }

  lemma ConsumeConserves(w: World, tid: nat, id: string, session: string, kind: CeremonyKind,
      account: Option<seq<byte>>, now: Time, next: SavedCeremony -> Thread)
    requires Conserved(w)
    ensures Conserved(DoConsume(w, tid, id, session, kind, account, now, next))
  {
    hide Saves, Consumptions;
    if CanConsume(w.ceremonies, id, session, kind, account) {
      OneRemoved(w.ceremonies, id);
      CountOneMore(w.history, Consumed(tid, id, session, w.ceremonies[id], now));
    }
  }

  lemma OneRemoved(entries: CeremonyTable, id: string)
    requires id in entries
    ensures |entries - {id}| == |entries| - 1
  {
    assert (entries - {id}).Keys == entries.Keys - {id};
  }

  lemma UseAppended(uses: seq<Event>, id: string, e: Event)
    requires SingleUse(uses, id) && (e.Consumed? ==> LastSaved(uses, id, e.ceremony))
    ensures SingleUse(uses + [e], id)
    ensures e.Saved? && e.id == id ==> LastSaved(uses + [e], id, e.ceremony)
  {}

  /** One more event about `id`, after which the entries under other ids are some of those before. */
  lemma EventKeepsUses(w: World, w': World, id: string, e: Event)
    requires UsesFit(w) && About(e, id) && w'.history == w.history + [e]
    requires e.Consumed? ==> id in w.ceremonies && w.ceremonies[id] == e.ceremony && id !in w'.ceremonies
    requires e.Saved? && id in w'.ceremonies ==> w'.ceremonies[id] == e.ceremony
    requires forall other :: other in w'.ceremonies && other != id ==>
              other in w.ceremonies && w'.ceremonies[other] == w.ceremonies[other]
    ensures UsesFit(w')
  {
    hide Uses, SingleUse, LastSaved;
    forall other
      ensures Uses(w'.history, other) == if other == id then Uses(w.history, id) + [e] else Uses(w.history, other)
    {
      UsesOneMore(w.history, e, other);
    }
    UseAppended(Uses(w.history, id), id, e);
  }

  lemma SaveKeepsUses(w: World, id: string, saved: SavedCeremony, now: Time)
    requires UsesFit(w)
    ensures UsesFit(DoSave(w, id, saved, now))
  {
    hide Uses, SingleUse, LastSaved;
    if CanSave(w.ceremonies, id, saved, now) {
      hide UsesFit;
      EventKeepsUses(w, DoSave(w, id, saved, now), id, Saved(id, saved));
    }
  }

  lemma ConsumeKeepsUses(w: World, tid: nat, id: string, session: string, kind: CeremonyKind,
      account: Option<seq<byte>>, now: Time, next: SavedCeremony -> Thread)
    requires UsesFit(w)
    ensures UsesFit(DoConsume(w, tid, id, session, kind, account, now, next))
  {
    hide Uses, SingleUse, LastSaved;
    var result := ConsumeResult(w.ceremonies, id, session, kind, account, now);
    if result.Ok? {
      hide UsesFit;
      EventKeepsUses(w, DoConsume(w, tid, id, session, kind, account, now, next), id,
          Consumed(tid, id, session, result.value, now));
    }
  }

  /** Steps other than saves and consumptions leave the ceremonies and their uses alone. */
  predicate LeavesCeremonies(w: World, w': World) {
    && w'.ceremonies == w.ceremonies && w'.dropped == w.dropped
    && (w'.history == w.history
        || (|w'.history| == |w.history| + 1 && w'.history[..|w.history|] == w.history
            && !w'.history[|w.history|].Saved? && !w'.history[|w.history|].Consumed?))
  }

  lemma OtherStepsLeaveCeremonies(site: Site, w: World, step: Step)
    requires !step.SaveStep? && !step.ConsumeLogin? && !step.ConsumeEnrolment?
    ensures LeavesCeremonies(w, Apply(site, w, step))
  {
    hide LocalMove, UpdateFault, AfterUpdate, InsertFault, AfterInsert;
  }

  lemma LeavingKeeps(w: World, w': World)
    requires LeavesCeremonies(w, w') && Conserved(w) && UsesFit(w)
    ensures Conserved(w') && UsesFit(w')
  {
    hide Uses, SingleUse, LastSaved, Saves, Consumptions;
    if w'.history != w.history {
      var e := w'.history[|w.history|];
      assert w'.history == w.history + [e];
      CountOneMore(w.history, e);
      forall id ensures Uses(w'.history, id) == Uses(w.history, id) { UsesOneMore(w.history, e, id); }
    }
  }

  lemma StepKeepsUses(site: Site, w: World, step: Step)
    requires Conserved(w) && UsesFit(w)
    ensures Conserved(Apply(site, w, step)) && UsesFit(Apply(site, w, step))
  {
    hide Conserved, UsesFit, DoSave, DoConsume, DoUpdate, DoOpen, DoInsert, LocalMove, WithThread,
      AfterLoginConsumed, AfterEnrolmentConsumed;
    match step
    case SaveStep(id, saved, now) =>
      SaveConserves(w, id, saved, now);
      SaveKeepsUses(w, id, saved, now);
    case ConsumeLogin(tid, session, id, body, now) =>
      ConsumeConserves(w, tid, id, session, AuthenticationKind, None, now,
          saved => AfterLoginConsumed(site, saved, body));
      ConsumeKeepsUses(w, tid, id, session, AuthenticationKind, None, now,
          saved => AfterLoginConsumed(site, saved, body));
    case ConsumeEnrolment(tid, session, id, user, answer, now) =>
      ConsumeConserves(w, tid, id, session, RegistrationKind, Some(user), now,
          saved => AfterEnrolmentConsumed(site, saved, answer));
      ConsumeKeepsUses(w, tid, id, session, RegistrationKind, Some(user), now,
          saved => AfterEnrolmentConsumed(site, saved, answer));
    case _ =>
      OtherStepsLeaveCeremonies(site, w, step);
      LeavingKeeps(w, Apply(site, w, step));
  }

  /** In every run, saves equal live plus consumed plus expired ceremonies, at most 128 are live, and each consumption
      takes the ceremony that the directly preceding save under its id stored. */
  lemma {:induction false} CeremoniesOfEveryRun(site: Site, steps: seq<Step>)
    ensures Conserved(Run(site, steps)) && UsesFit(Run(site, steps))
  {
    hide Apply, UsesFit;
    if steps == [] {
      NoUses();
    } else {
      CeremoniesOfEveryRun(site, steps[..|steps| - 1]);
      StepKeepsUses(site, Run(site, steps[..|steps| - 1]), steps[|steps| - 1]);
    }
  }

  lemma NoUses()
    ensures UsesFit(START)
  {}

  /** Between two consumptions under one id there is a save, so no saved ceremony is consumed twice. */
  lemma NeverConsumedTwice(site: Site, steps: seq<Step>, id: string, i: nat, j: nat)
    requires i < j < |Uses(Run(site, steps).history, id)|
    requires Uses(Run(site, steps).history, id)[i].Consumed? && Uses(Run(site, steps).history, id)[j].Consumed?
    ensures i < j - 1 && Uses(Run(site, steps).history, id)[j - 1].Saved?
  {
    hide Run;
    CeremoniesOfEveryRun(site, steps);
    assert SingleUse(Uses(Run(site, steps).history, id), id);
  }
}
