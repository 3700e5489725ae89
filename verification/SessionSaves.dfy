// Different sessions rest on different saved ceremonies, in every run.
module SessionSaves {
  import opened Base
  import opened Stores
  import opened Logins
  import opened LoginTraces
  import opened CeremonyUse

  // ----- Positions in a history -----

  /** The last event about a ceremony id before position `k`. */
  function LastUse(history: seq<Event>, k: nat, id: string): Option<nat>
    requires k <= |history|
  {
    if k == 0 then None else if About(history[k - 1], id) then Some(k - 1) else LastUse(history, k - 1, id)
  }

  lemma {:induction false} LastUseEndsUses(history: seq<Event>, k: nat, id: string)
    requires k <= |history|
    ensures LastUse(history, k, id).None? <==> Uses(history[..k], id) == []
    ensures LastUse(history, k, id).Some? ==>
              var j, uses := LastUse(history, k, id).value, Uses(history[..k], id);
              && j < k && About(history[j], id) && uses != [] && uses[|uses| - 1] == history[j]
              && forall m :: j < m < k ==> !About(history[m], id)
  {
    if k > 0 {
      assert history[..k][..k - 1] == history[..k - 1];
      LastUseEndsUses(history, k - 1, id);
    }
  }

  lemma {:induction false} UsesPrefix(history: seq<Event>, k: nat, id: string)
    requires k <= |history|
    ensures Uses(history[..k], id) <= Uses(history, id)
    decreases |history|
  {
    if k == |history| {
      assert history[..k] == history;
    } else {
      var before := history[..|history| - 1];
      assert before[..k] == history[..k];
      UsesPrefix(before, k, id);
    }
  }

  /** Under single use, a consumption takes the ceremony of the last event under its id, which is a save. */
  lemma ConsumedIsSaved(history: seq<Event>, k: nat)
    requires k < |history| && history[k].Consumed? && SingleUse(Uses(history, history[k].id), history[k].id)
    ensures LastUse(history, k, history[k].id).Some? && LastUse(history, k, history[k].id).value < k
    ensures history[LastUse(history, k, history[k].id).value] == Saved(history[k].id, history[k].ceremony)
  {
    var id, before := history[k].id, Uses(history[..k], history[k].id);
    assert history[..k + 1][..k] == history[..k];
    assert Uses(history[..k + 1], id) == before + [history[k]];
    UsesPrefix(history, k + 1, id);
    assert Uses(history, id)[|before|] == history[k];
    assert |before| > 0 && Uses(history, id)[|before| - 1] == Saved(id, history[k].ceremony);
    LastUseEndsUses(history, k, id);
  }

  /** Two consumptions take two saves. */
  lemma ConsumptionsTakeDifferentSaves(history: seq<Event>, a: nat, b: nat)
    requires a < b < |history| && history[a].Consumed? && history[b].Consumed?
    requires forall id :: SingleUse(Uses(history, id), id)
    ensures LastUse(history, a, history[a].id).Some? && LastUse(history, b, history[b].id).Some?
    ensures LastUse(history, a, history[a].id) != LastUse(history, b, history[b].id)
  {
    hide LastUse, Uses, SingleUse;
    ConsumedIsSaved(history, a);
    ConsumedIsSaved(history, b);
    LastUseEndsUses(history, a, history[a].id);
    LastUseEndsUses(history, b, history[b].id);
  }

  // ----- Positions of a request's events -----

  lemma {:induction false} TracePrefix(history: seq<Event>, k: nat, tid: nat)
    requires k <= |history|
    ensures Trace(history[..k], tid) <= Trace(history, tid)
    decreases |history|
  {
    if k == |history| {
      assert history[..k] == history;
    } else {
      var before := history[..|history| - 1];
      assert before[..k] == history[..k];
      TracePrefix(before, k, tid);
    }
  }

  /** An event of a request stands in its trace after the events that precede it. */
  lemma EventAt(history: seq<Event>, k: nat, tid: nat)
    requires k < |history| && Of(history[k], tid)
    ensures |Trace(history[..k], tid)| < |Trace(history, tid)|
              && Trace(history, tid)[|Trace(history[..k], tid)|] == history[k]
  {
    assert history[..k + 1][..k] == history[..k];
    TracePrefix(history, k + 1, tid);
  }

  /** The position of a request's consumption before `k`. */
  function ConsumedAt(history: seq<Event>, k: nat, tid: nat): Option<nat>
    requires k <= |history|
  {
    if k == 0 then None
    else if history[k - 1].Consumed? && history[k - 1].tid == tid then Some(k - 1)
    else ConsumedAt(history, k - 1, tid)
  }

  lemma {:induction false} ConsumedAtIsFound(history: seq<Event>, k: nat, tid: nat)
    requires k <= |history|
    ensures ConsumedAt(history, k, tid).Some? ==>
              var c := ConsumedAt(history, k, tid).value; c < k && history[c].Consumed? && history[c].tid == tid
  {
    if k > 0 { ConsumedAtIsFound(history, k - 1, tid); }
  }

  lemma {:induction false} ConsumedAtExists(history: seq<Event>, k: nat, tid: nat, i: nat)
    requires k <= |history| && i < |Trace(history[..k], tid)| && Trace(history[..k], tid)[i].Consumed?
    ensures ConsumedAt(history, k, tid).Some?
  {
    assert k > 0 && history[..k][..k - 1] == history[..k - 1];
    if i < |Trace(history[..k - 1], tid)| { ConsumedAtExists(history, k - 1, tid, i); }
  }

  // ----- Sessions -----

  /** The position of the save behind an opened session: the last save under the id that its request consumed. */
  function SaveBehind(history: seq<Event>, k: nat): Option<nat>
    requires k < |history| && history[k].Opened?
  {
    match ConsumedAt(history, k, history[k].tid)
    case None => None
    case Some(c) => (ConsumedAtIsFound(history, k, history[k].tid); LastUse(history, c, history[c].id))
  }

  /** The save behind a session exists, lies before it, and stored an authentication ceremony. */
  predicate RestsOnSave(history: seq<Event>, k: nat)
    requires k < |history| && history[k].Opened?
  {
    var s := SaveBehind(history, k);
    s.Some? && s.value < k && history[s.value].Saved? && history[s.value].ceremony.kind.AuthenticationKind?
  }

  /** The consumption of an opened session's request. */
  lemma SessionConsumed(site: Site, steps: seq<Step>, k: nat) returns (c: nat)
    requires Sound(site) && k < |Run(site, steps).history| && Run(site, steps).history[k].Opened?
    ensures var history := Run(site, steps).history;
            && ConsumedAt(history, k, history[k].tid) == Some(c) && c < k
            && |Trace(history[..k], history[k].tid)| == 2
            && Trace(history, history[k].tid) != [] && history[c] == Trace(history, history[k].tid)[0]
            && FairConsume(history[c], history[k].tid, AuthenticationKind)
  {
    hide Run, Sound, LoginCommitted;
    var history := Run(site, steps).history;
    var tid := history[k].tid;
    SessionProvenance(site, steps, tid, history[k].sid, history[k].user);
    var trace := Trace(history, tid);
    EventAt(history, k, tid);
    CompletedShape(site, tid, trace);
    TracePrefix(history, k, tid);
    assert Trace(history[..k], tid)[0] == trace[0];
    ConsumedAtIsFound(history, k, tid);
    ConsumedAtExists(history, k, tid, 0);
    c := ConsumedAt(history, k, tid).value;
    EventAt(history, c, tid);
  }

  /** A completed login consumed first and opened last, once each. */
  lemma CompletedShape(site: Site, tid: nat, trace: seq<Event>)
    requires LoginCompleted(site, tid, trace)
    ensures |trace| == 3 && trace[0].Consumed? && trace[1].LoggedIn? && trace[2].Opened?
    ensures FairConsume(trace[0], tid, AuthenticationKind)
  {
    hide LoginAccepted;
  }

  /** In every run, each opened session rests on a save of an authentication ceremony that lies before it, and
      different sessions rest on different saves. */
  lemma SessionsUseDifferentSaves(site: Site, steps: seq<Step>, i: nat, j: nat)
    requires Sound(site) && i < j < |Run(site, steps).history|
    requires Run(site, steps).history[i].Opened? && Run(site, steps).history[j].Opened?
    ensures RestsOnSave(Run(site, steps).history, i) && RestsOnSave(Run(site, steps).history, j)
    ensures SaveBehind(Run(site, steps).history, i) != SaveBehind(Run(site, steps).history, j)
  {
    hide Run, Sound, LastUse, ConsumedAt, Trace, Uses, SingleUse;
    var history := Run(site, steps).history;
    var a := SessionConsumed(site, steps, i);
    var b := SessionConsumed(site, steps, j);
    CeremoniesOfEveryRun(site, steps);
    DifferentRequests(history, i, j);
    SessionSave(site, steps, i, a);
    SessionSave(site, steps, j, b);
    if a < b { ConsumptionsTakeDifferentSaves(history, a, b); }
    if b < a { ConsumptionsTakeDifferentSaves(history, b, a); }
  }

  /** Two sessions belong to two requests, because a request's trace has room for one. */
  lemma DifferentRequests(history: seq<Event>, i: nat, j: nat)
    requires i < j < |history| && history[i].Opened? && history[j].Opened?
    requires |Trace(history[..i], history[i].tid)| == 2 && |Trace(history[..j], history[j].tid)| == 2
    ensures history[i].tid != history[j].tid
  {
    var tid := history[i].tid;
    assert history[..j][..i] == history[..i];
    EventAt(history[..j], i, tid);
  }

  /** The save behind a session stored the authentication ceremony that the session's request consumed. */
  lemma SessionSave(site: Site, steps: seq<Step>, k: nat, c: nat)
    requires Sound(site) && k < |Run(site, steps).history| && Run(site, steps).history[k].Opened?
    requires ConsumedAt(Run(site, steps).history, k, Run(site, steps).history[k].tid) == Some(c)
    ensures var history := Run(site, steps).history;
            && c < k && history[c].Consumed? && history[c].tid == history[k].tid
            && SaveBehind(history, k) == LastUse(history, c, history[c].id)
            && SaveBehind(history, k).Some? && SaveBehind(history, k).value < c
            && history[SaveBehind(history, k).value] == Saved(history[c].id, history[c].ceremony)
  {
    hide Run, Sound, Uses, SingleUse;
    var history := Run(site, steps).history;
    ConsumedAtIsFound(history, k, history[k].tid);
    CeremoniesOfEveryRun(site, steps);
    ConsumedIsSaved(history, c);
    LastUseEndsUses(history, c, history[c].id);
  }
}
