// Attestation trust policies as trees: evaluation, flattening and boolean meaning.
module Policies {
  import opened Base

  datatype PolicyError = Configuration | Provider(code: nat)

  /** A policy's verdict. */
  datatype Outcome =
    | Decided(accepted: bool, reason: string, warnings: seq<string>)
    | Failed(error: PolicyError)

  /** What a policy looks at. */
  datatype TrustRequest = TrustRequest(format: string, attestationType: string, aaguid: seq<byte>)

  datatype Kind = All | Any

  /** Missing stands for a nil policy. */
  datatype Policy =
    | Missing
    | Leaf(evaluate: TrustRequest -> Outcome)
    | Node(kind: Kind, children: seq<Policy>)

  function Reason(kind: Kind): string {
    if kind.All? then "all trust policies accepted" else "no trust policy accepted attestation"
  }

  /** The verdict of a node none of whose children has decided it. */
  function Undecided(kind: Kind, warnings: seq<string>): Outcome { Decided(kind.All?, Reason(kind), warnings) }

  /** Whether a child's verdict settles its node. */
  predicate Settles(kind: Kind, o: Outcome) { o.Failed? || o.accepted != kind.All? }

  /** The verdict of two consecutive parts of a node. */
  function Then(kind: Kind, first: Outcome, rest: Outcome): Outcome {
    if first.Failed? then first
    else if Settles(kind, first) then first
    else
      match rest
      case Failed(_) => rest
      case Decided(accepted, reason, warnings) =>
        if kind.Any? && accepted then rest else Decided(accepted, reason, first.warnings + warnings)
  }

  function Over(kind: Kind, outcomes: seq<Outcome>): Outcome {
    if outcomes == [] then Undecided(kind, []) else Then(kind, outcomes[0], Over(kind, outcomes[1..]))
  }

  function Evaluate(p: Policy, q: TrustRequest): Outcome {
    match p
    case Missing => Failed(Configuration)
    case Leaf(evaluate) => evaluate(q)
    case Node(kind, children) =>
      if children == [] then Failed(Configuration)
      else Over(kind, seq(|children|, i requires 0 <= i < |children| => Evaluate(children[i], q)))
  }

  function Outcomes(ps: seq<Policy>, q: TrustRequest): seq<Outcome> {
    seq(|ps|, i requires 0 <= i < |ps| => Evaluate(ps[i], q))
  }

  /** The loop of a node: children in order, warnings gathered until one child settles the verdict. */
  method EvaluatePolicy(p: Policy, q: TrustRequest) returns (o: Outcome)
    ensures o == Evaluate(p, q)
  {
    match p
    case Missing => return Failed(Configuration);
    case Leaf(evaluate) => return evaluate(q);
    case Node(kind, children) =>
      if |children| == 0 {
        return Failed(Configuration);
      }
      ghost var all := Outcomes(children, q);
      assert Evaluate(p, q) == Over(kind, all);
      var warnings: seq<string> := [];
      UndecidedIsNeutral(kind, Over(kind, all));
      assert all[0..] == all;
      for i := 0 to |children|
        invariant Over(kind, all) == Then(kind, Undecided(kind, warnings), Over(kind, all[i..]))
      {
        if children[i].Missing? {
          OneChild(kind, all, i, warnings);
          return Failed(Configuration);
        }
        var result := EvaluatePolicy(children[i], q);
        OneChild(kind, all, i, warnings);
        if result.Failed? {
          return result;
        }
        if kind.All? {
          warnings := warnings + result.warnings;
          if !result.accepted {
            return result.(warnings := warnings);
          }
        } else {
          if result.accepted {
            return result;
          }
          warnings := warnings + result.warnings;
        }
      }
      return Undecided(kind, warnings);
  }

  lemma UndecidedIsNeutral(kind: Kind, o: Outcome)
    ensures Then(kind, Undecided(kind, []), o) == o
  {}

  /** One turn of the loop. */
  lemma OneChild(kind: Kind, all: seq<Outcome>, i: nat, warnings: seq<string>)
    requires i < |all|
    ensures all[i].Failed? ==> Then(kind, Undecided(kind, warnings), Over(kind, all[i..])) == all[i]
    ensures all[i].Decided? && all[i].accepted == kind.All? ==>
              Then(kind, Undecided(kind, warnings), Over(kind, all[i..]))
              == Then(kind, Undecided(kind, warnings + all[i].warnings), Over(kind, all[i + 1..]))
    ensures all[i].Decided? && all[i].accepted != kind.All? ==>
              Then(kind, Undecided(kind, warnings), Over(kind, all[i..]))
              == (if kind.All? then all[i].(warnings := warnings + all[i].warnings) else all[i])
  {
    assert all[i..][1..] == all[i + 1..];
    ThenIsAssociative(kind, Undecided(kind, warnings), all[i], Over(kind, all[i + 1..]));
  }

  // ----- Flattening -----

  lemma ThenIsAssociative(kind: Kind, a: Outcome, b: Outcome, c: Outcome)
    ensures Then(kind, Then(kind, a, b), c) == Then(kind, a, Then(kind, b, c))
  {
    if a.Decided? && b.Decided? && c.Decided? {
      assert (a.warnings + b.warnings) + c.warnings == a.warnings + (b.warnings + c.warnings);
    }
  }

  lemma {:induction false} OverConcat(kind: Kind, a: seq<Outcome>, b: seq<Outcome>)
    ensures Over(kind, a + b) == Then(kind, Over(kind, a), Over(kind, b))
  {
    if a == [] {
      assert a + b == b;
      UndecidedIsNeutral(kind, Over(kind, b));
    } else {
      OverConcat(kind, a[1..], b);
      assert (a + b)[1..] == a[1..] + b;
      ThenIsAssociative(kind, a[0], Over(kind, a[1..]), Over(kind, b));
    }
  }

  /** Every node has children and none of them is nil. */
  predicate WellFormed(p: Policy) {
    match p
    case Missing => false
    case Leaf(_) => true
    case Node(_, children) => children != [] && forall i :: 0 <= i < |children| ==> WellFormed(children[i])
  }

  /** The first `n` children of a node, with children of the same kind replaced by their own. */
  function Merged(p: Policy, n: nat): seq<Policy>
    requires p.Node? && n <= |p.children|
    decreases p, 0, n
  {
    if n == 0 then []
    else
      var c := p.children[n - 1];
      Merged(p, n - 1) + (if c.Node? && c.kind == p.kind then Merged(c, |c.children|) else [Flatten(c)])
  }

  /** The tree in which no node has a child of its own kind. */
  function Flatten(p: Policy): Policy
    decreases p, 1
  {
    if p.Node? then Node(p.kind, Merged(p, |p.children|)) else p
  }

  /** At every level, no node has a child of its own kind. */
  predicate IsFlat(p: Policy) {
    p.Node? ==> forall i :: 0 <= i < |p.children| ==>
      IsFlat(p.children[i]) && !(p.children[i].Node? && p.children[i].kind == p.kind)
  }

  lemma {:induction false} MergedIsFlat(p: Policy, n: nat, i: nat)
    requires p.Node? && n <= |p.children| && i < |Merged(p, n)|
    ensures IsFlat(Merged(p, n)[i]) && !(Merged(p, n)[i].Node? && Merged(p, n)[i].kind == p.kind)
    decreases p, 0, n
  {
    hide IsFlat;
    var c, before := p.children[n - 1], Merged(p, n - 1);
    if i < |before| {
      MergedIsFlat(p, n - 1, i);
    } else if c.Node? && c.kind == p.kind {
      MergedIsFlat(c, |c.children|, i - |before|);
    } else {
      FlattenIsFlat(c);
    }
  }

  /** Flattening leaves no node with a child of its own kind, at any level. */
  lemma {:induction false} FlattenIsFlat(p: Policy)
    ensures IsFlat(Flatten(p))
    decreases p, 1
  {
    if p.Node? {
      forall i | 0 <= i < |Merged(p, |p.children|)|
        ensures IsFlat(Merged(p, |p.children|)[i])
        ensures !(Merged(p, |p.children|)[i].Node? && Merged(p, |p.children|)[i].kind == p.kind)
      {
        MergedIsFlat(p, |p.children|, i);
      }
    }
  }

  lemma {:induction false} MergedIsNonempty(p: Policy, n: nat)
    requires p.Node? && WellFormed(p) && 0 < n <= |p.children|
    ensures Merged(p, n) != []
    decreases p, n
  {
    var c := p.children[n - 1];
    if c.Node? && c.kind == p.kind { MergedIsNonempty(c, |c.children|); }
  }

  lemma OutcomesConcat(a: seq<Policy>, b: seq<Policy>, q: TrustRequest)
    ensures Outcomes(a + b, q) == Outcomes(a, q) + Outcomes(b, q)
  {
    hide Evaluate;
  }

  lemma {:induction false} OverOne(kind: Kind, o: Outcome)
    ensures Over(kind, [o]) == Then(kind, o, Undecided(kind, []))
  {
    assert [o][1..] == [];
  }

  /** Two lists of children that agree part by part agree. */
  lemma OverParts(kind: Kind, a: seq<Policy>, b: seq<Policy>, a': seq<Policy>, b': seq<Policy>, q: TrustRequest)
    requires Over(kind, Outcomes(a, q)) == Over(kind, Outcomes(a', q))
    requires Over(kind, Outcomes(b, q)) == Over(kind, Outcomes(b', q))
    ensures Over(kind, Outcomes(a + b, q)) == Over(kind, Outcomes(a' + b', q))
  {
    hide Evaluate, Over, Then, Outcomes;
    OutcomesConcat(a, b, q);
    OutcomesConcat(a', b', q);
    OverConcat(kind, Outcomes(a, q), Outcomes(b, q));
    OverConcat(kind, Outcomes(a', q), Outcomes(b', q));
  }

  lemma OneOutcome(p: Policy, q: TrustRequest)
    ensures Outcomes([p], q) == [Evaluate(p, q)]
  {
    hide Evaluate;
  }

  /** What replaces one child. */
  function Replacement(kind: Kind, c: Policy): seq<Policy> {
    if c.Node? && c.kind == kind then Merged(c, |c.children|) else [Flatten(c)]
  }

  lemma {:induction false} ReplacementKeepsMeaning(kind: Kind, c: Policy, q: TrustRequest)
    requires WellFormed(c)
    ensures Over(kind, Outcomes(Replacement(kind, c), q)) == Over(kind, Outcomes([c], q))
    decreases c, 2
  {
    hide Evaluate, Over, Outcomes, Merged, Flatten;
    OneOutcome(c, q);
    if c.Node? && c.kind == kind {
      MergedKeepsMeaning(c, |c.children|, q);
      assert c.children[..|c.children|] == c.children;
      NodeAlone(c, q);
    } else {
      FlattenKeepsMeaning(c, q);
      OneOutcome(Flatten(c), q);
    }
  }

  lemma MergedOneMore(p: Policy, n: nat)
    requires p.Node? && 0 < n <= |p.children|
    ensures Merged(p, n) == Merged(p, n - 1) + Replacement(p.kind, p.children[n - 1])
    ensures p.children[..n] == p.children[..n - 1] + [p.children[n - 1]]
  {
    hide Flatten;
  }

  lemma {:induction false} MergedKeepsMeaning(p: Policy, n: nat, q: TrustRequest)
    requires p.Node? && WellFormed(p) && n <= |p.children|
    ensures Over(p.kind, Outcomes(Merged(p, n), q)) == Over(p.kind, Outcomes(p.children[..n], q))
    decreases p, 0, n
  {
    hide Evaluate, Over, Outcomes, Replacement;
    if n == 0 {
      assert Merged(p, n) == p.children[..n];
    } else {
      hide Merged;
      var c := p.children[n - 1];
      MergedKeepsMeaning(p, n - 1, q);
      ReplacementKeepsMeaning(p.kind, c, q);
      OverParts(p.kind, Merged(p, n - 1), Replacement(p.kind, c), p.children[..n - 1], [c], q);
      MergedOneMore(p, n);
    }
  }

  lemma EvaluateNode(p: Policy, q: TrustRequest)
    requires p.Node? && p.children != []
    ensures Evaluate(p, q) == Over(p.kind, Outcomes(p.children, q))
  {
    hide Over;
    assert Outcomes(p.children, q) == seq(|p.children|, i requires 0 <= i < |p.children| => Evaluate(p.children[i], q));
  }

  /** A node as the only child of a node of its kind contributes its own verdict. */
  lemma NodeAlone(c: Policy, q: TrustRequest)
    requires c.Node? && c.children != []
    ensures Over(c.kind, [Evaluate(c, q)]) == Over(c.kind, Outcomes(c.children, q))
  {
    hide Evaluate, Over;
    EvaluateNode(c, q);
    OverOne(c.kind, Evaluate(c, q));
    OverConcat(c.kind, Outcomes(c.children, q), []);
    assert Outcomes(c.children, q) + [] == Outcomes(c.children, q);
    OverNothing(c.kind);
  }

  lemma OverNothing(kind: Kind)
    ensures Over(kind, []) == Undecided(kind, [])
  {}

  /** Nested nodes of one kind give the acceptance, reason, warnings and error of the flattened tree. */
  lemma {:induction false} FlattenKeepsMeaning(p: Policy, q: TrustRequest)
    requires WellFormed(p)
    ensures Evaluate(Flatten(p), q) == Evaluate(p, q)
    decreases p, 1
  {
    hide Evaluate, Over;
    if p.Node? {
      MergedKeepsMeaning(p, |p.children|, q);
      assert p.children[..|p.children|] == p.children;
      MergedIsNonempty(p, |p.children|);
      EvaluateNode(p, q);
      EvaluateNode(Flatten(p), q);
    }
  }

  /** An empty nested node is an error, so flattening it away would change the verdict. */
  lemma EmptyNodeMatters(accept: Policy, q: TrustRequest)
    requires accept.Leaf? && accept.evaluate(q) == Decided(true, "ok", [])
    ensures Evaluate(Node(All, [Node(All, []), accept]), q) == Failed(Configuration)
    ensures Evaluate(Flatten(Node(All, [Node(All, []), accept])), q).Decided?
  {
    var empty := Node(All, []);
    var p := Node(All, [empty, accept]);
    EvaluateNode(p, q);
    assert Outcomes([empty, accept], q)[0] == Failed(Configuration);
    assert Merged(p, 1) == [];
    assert Merged(p, 2) == [accept];
    EvaluateNode(Node(All, [accept]), q);
    assert Outcomes([accept], q) == [Decided(true, "ok", [])];
    OverOne(All, Decided(true, "ok", []));
  }

  // ----- Boolean meaning -----

  /** The tree read as a boolean formula over its leaves' acceptance; errors, nil and empty nodes are false. */
  predicate Holds(p: Policy, q: TrustRequest) {
    match p
    case Missing => false
    case Leaf(evaluate) => evaluate(q).Decided? && evaluate(q).accepted
    case Node(kind, children) =>
      if kind.All? then children != [] && forall i :: 0 <= i < |children| ==> Holds(children[i], q)
      else exists i :: 0 <= i < |children| && Holds(children[i], q)
  }

  predicate NoLeafFails(p: Policy, q: TrustRequest) {
    match p
    case Missing => true
    case Leaf(evaluate) => evaluate(q).Decided?
    case Node(_, children) => forall i :: 0 <= i < |children| ==> NoLeafFails(children[i], q)
  }

  predicate Accepts(o: Outcome) { o.Decided? && o.accepted }

  lemma {:induction false} OverAccepts(kind: Kind, outcomes: seq<Outcome>)
    ensures kind.All? ==> (Accepts(Over(kind, outcomes)) <==> forall i :: 0 <= i < |outcomes| ==> Accepts(outcomes[i]))
    ensures kind.Any? && Accepts(Over(kind, outcomes)) ==> exists i :: 0 <= i < |outcomes| && Accepts(outcomes[i])
    ensures kind.Any? && (forall i :: 0 <= i < |outcomes| ==> outcomes[i].Decided?) ==>
              (Accepts(Over(kind, outcomes)) <==> exists i :: 0 <= i < |outcomes| && Accepts(outcomes[i]))
    ensures (forall i :: 0 <= i < |outcomes| ==> outcomes[i].Decided?) ==> Over(kind, outcomes).Decided?
  {
    if outcomes != [] {
      var rest := outcomes[1..];
      OverAccepts(kind, rest);
      assert forall i :: 0 <= i < |rest| ==> rest[i] == outcomes[i + 1];
      assert forall i :: 0 < i < |outcomes| ==> outcomes[i] == rest[i - 1];
    }
  }

  /** Acceptance always means that the formula holds, whatever fails; it is never the effect of an error. */
  lemma {:induction false} AcceptedHolds(p: Policy, q: TrustRequest)
    requires Accepts(Evaluate(p, q))
    ensures Holds(p, q)
  {
    if p.Node? {
      hide Over;
      EvaluateNode(p, q);
      var all := Outcomes(p.children, q);
      OverAccepts(p.kind, all);
      if p.kind.All? {
        forall i | 0 <= i < |p.children| ensures Holds(p.children[i], q) {
          assert Accepts(all[i]);
          AcceptedHolds(p.children[i], q);
        }
      } else {
        var i :| 0 <= i < |all| && Accepts(all[i]);
        AcceptedHolds(p.children[i], q);
      }
    }
  }

  /** Without leaf errors a well-formed tree decides, and accepts exactly when its formula holds. */
  lemma {:induction false} EvaluatesAsFormula(p: Policy, q: TrustRequest)
    requires WellFormed(p) && NoLeafFails(p, q)
    ensures Evaluate(p, q).Decided? && (Accepts(Evaluate(p, q)) <==> Holds(p, q))
  {
    if p.Node? {
      hide Over;
      EvaluateNode(p, q);
      var all := Outcomes(p.children, q);
      forall i | 0 <= i < |p.children| ensures all[i].Decided? && (Accepts(all[i]) <==> Holds(p.children[i], q)) {
        EvaluatesAsFormula(p.children[i], q);
      }
      OverAccepts(p.kind, all);
    }
  }

  // ----- Verdicts by the deciding child -----

  /** The warnings of the first `n` outcomes, in order. */
  function Gathered(outcomes: seq<Outcome>, n: nat): seq<string>
    requires n <= |outcomes|
  {
    if n == 0 then []
    else Gathered(outcomes, n - 1) + (if outcomes[n - 1].Decided? then outcomes[n - 1].warnings else [])
  }

  lemma {:induction false} GatheredFromSecond(outcomes: seq<Outcome>, n: nat)
    requires 0 < n <= |outcomes| && outcomes[0].Decided?
    ensures Gathered(outcomes, n) == outcomes[0].warnings + Gathered(outcomes[1..], n - 1)
  {
    if n == 1 {
      assert Gathered(outcomes, 0) == [];
    } else {
      GatheredFromSecond(outcomes, n - 1);
      assert outcomes[1..][n - 2] == outcomes[n - 1];
    }
  }

  /** Whether the first `i` outcomes leave an all node at acceptance, or an any node at refusal. */
  predicate Open(kind: Kind, outcomes: seq<Outcome>, i: nat)
    requires i <= |outcomes|
  {
    forall k :: 0 <= k < i ==> outcomes[k].Decided? && (outcomes[k].accepted <==> kind == All)
  }

  lemma {:induction false} OverExactly(kind: Kind, outcomes: seq<Outcome>, i: nat)
    requires i <= |outcomes| && Open(kind, outcomes, i)
    ensures i == |outcomes| ==>
              Over(kind, outcomes) ==
                if kind == All then Decided(true, "all trust policies accepted", Gathered(outcomes, i))
                else Decided(false, "no trust policy accepted attestation", Gathered(outcomes, i))
    ensures i < |outcomes| && outcomes[i].Failed? ==> Over(kind, outcomes) == outcomes[i]
    ensures i < |outcomes| && outcomes[i].Decided? && kind == All && !outcomes[i].accepted ==>
              Over(kind, outcomes)
                == Decided(false, outcomes[i].reason, Gathered(outcomes, i) + outcomes[i].warnings)
    ensures i < |outcomes| && outcomes[i].Decided? && kind == Any && outcomes[i].accepted ==>
              Over(kind, outcomes) == outcomes[i]
  {
    hide Over, Gathered, Then;
    OverFirst(kind, outcomes);
    NothingGathered(outcomes);
    if i > 0 {
      var first, rest := outcomes[0], outcomes[1..];
      assert forall k :: 0 <= k < |rest| ==> rest[k] == outcomes[k + 1];
      OverExactly(kind, rest, i - 1);
      GatheredFromSecond(outcomes, i);
      ThenExactly(kind, first, Over(kind, rest));
      if i < |outcomes| && outcomes[i].Decided? {
        assert first.warnings + (Gathered(rest, i - 1) + outcomes[i].warnings)
            == (first.warnings + Gathered(rest, i - 1)) + outcomes[i].warnings;
      }
    } else if outcomes != [] {
      ThenExactly(kind, outcomes[0], Over(kind, outcomes[1..]));
    }
  }

  /** A first outcome that leaves its node open adds its warnings to the verdict of the rest, unless that is a failure
      or an acceptance under any; any other first outcome is the verdict. */
  lemma ThenExactly(kind: Kind, first: Outcome, rest: Outcome)
    ensures Then(kind, first, rest) ==
              if first.Failed? || first.accepted != (kind == All) then first
              else if rest.Failed? || (kind == Any && rest.accepted) then rest
              else Decided(rest.accepted, rest.reason, first.warnings + rest.warnings)
  {}

  lemma OverFirst(kind: Kind, outcomes: seq<Outcome>)
    ensures Over(kind, outcomes) == if outcomes == [] then Undecided(kind, [])
              else Then(kind, outcomes[0], Over(kind, outcomes[1..]))
  {}

  lemma NothingGathered(outcomes: seq<Outcome>)
    ensures Gathered(outcomes, 0) == []
  {}

  /** The verdict of a tree. A nil policy and a node without children are configuration errors, a leaf speaks for
      itself. A node is decided by its first child that fails, or refuses under all, or accepts under any: a failure and
      an acceptance stand alone, a refusal comes with all warnings so far. A node that no child decides accepts under
      all and refuses under any, with the warnings of every child. */
  lemma VerdictExactly(p: Policy, q: TrustRequest, i: nat)
    ensures p == Missing ==> Evaluate(p, q) == Failed(Configuration)
    ensures p.Leaf? ==> Evaluate(p, q) == p.evaluate(q)
    ensures p.Node? && p.children == [] ==> Evaluate(p, q) == Failed(Configuration)
    ensures p.Node? && p.children != [] && i <= |p.children| && Open(p.kind, Outcomes(p.children, q), i) ==>
              var all := Outcomes(p.children, q);
              if i == |all| then
                Evaluate(p, q) == if p.kind == All then Decided(true, "all trust policies accepted", Gathered(all, i))
                                  else Decided(false, "no trust policy accepted attestation", Gathered(all, i))
              else if Open(p.kind, all, i + 1) then true
              else if all[i].Failed? || p.kind == Any then Evaluate(p, q) == all[i]
              else Evaluate(p, q) == Decided(false, all[i].reason, Gathered(all, i) + all[i].warnings)
  {
    hide Over;
    if p.Node? && p.children != [] {
      EvaluateNode(p, q);
      var all := Outcomes(p.children, q);
      if i <= |all| && Open(p.kind, all, i) { OverExactly(p.kind, all, i); }
    }
  }

  /** A nil child fails its node, all or any, unless an earlier child has decided. */
  lemma MissingChildFails(kind: Kind, children: seq<Policy>, i: nat, q: TrustRequest)
    requires i < |children| && children[i] == Missing && Open(kind, Outcomes(children, q), i)
    ensures Evaluate(Node(kind, children), q) == Failed(Configuration)
  {
    hide Evaluate;
    VerdictExactly(children[i], q, 0);
    VerdictExactly(Node(kind, children), q, i);
    assert Outcomes(children, q)[i] == Failed(Configuration);
  }
}
