// Compound attestation: how many sub-statements must verify, and the loop that counts them.
module Compound {
  import opened Base

  const DEFAULT_MAX_STATEMENTS := 16
  const MAX_CONFIGURED_STATEMENTS := 64

  datatype CompoundError = InvalidStatement | VerifierMissing | Insufficient

  /** What the registry's verifier says about a sub-statement; `kept` identifies a verified result. */
  datatype Verdict = NoVerifier | Failed | Invalid | Valid(kept: nat)

  /** A format and its statement, None where the statement is missing. */
  datatype SubStatement = SubStatement(format: string, statement: Option<seq<byte>>)

  datatype CompoundPolicy = CompoundPolicy(minimumSuccessful: int, requireAll: bool, maxStatements: int)

  /** The verdict on each sub-statement, by its position. */
  type Judge = (nat, SubStatement) -> Verdict

  datatype CompoundResult = CompoundResult(results: seq<nat>, warnings: seq<string>, successes: nat, required: nat)

  /** The number of sub-statements that must verify out of `total`. */
  function RequiredSuccesses(policy: CompoundPolicy, total: int): (r: Option<nat>)
    ensures r.Some? <==>
              && 2 <= total <= (if policy.maxStatements == 0 then 16 else policy.maxStatements)
              && policy.maxStatements <= 64
              && (policy.requireAll || 0 <= policy.minimumSuccessful <= total)
    ensures r.Some? ==> 1 <= r.value <= total
    ensures r.Some? ==>
              r.value == if policy.requireAll || policy.minimumSuccessful == 0 then total else policy.minimumSuccessful
  {
    var maximum := if policy.maxStatements == 0 then DEFAULT_MAX_STATEMENTS else policy.maxStatements;
    if total < 2 then None
    else if maximum < 2 || maximum > MAX_CONFIGURED_STATEMENTS || total > maximum then None
    else if policy.requireAll || policy.minimumSuccessful == 0 then Some(total)
    else if policy.minimumSuccessful < 0 || policy.minimumSuccessful > total then None
    else Some(policy.minimumSuccessful)
  }

  /** The verified results, in the order of their statements. */
  function Verified(statements: seq<SubStatement>, judge: Judge): seq<nat> {
    if statements == [] then []
    else
      var last := judge(|statements| - 1, statements[|statements| - 1]);
      Verified(statements[..|statements| - 1], judge) + (if last.Valid? then [last.kept] else [])
  }

  /** They are the results of exactly the statements whose verdict is valid, in the order of the statements. */
  lemma {:induction false} VerifiedExactly(statements: seq<SubStatement>, judge: Judge) returns (positions: seq<nat>)
    ensures |positions| == |Verified(statements, judge)|
    ensures forall i, j :: 0 <= i < j < |positions| ==> positions[i] < positions[j]
    ensures forall j :: 0 <= j < |positions| ==>
              && positions[j] < |statements|
              && judge(positions[j], statements[positions[j]]) == Valid(Verified(statements, judge)[j])
    ensures forall i: nat :: i < |statements| && judge(i, statements[i]).Valid? ==> i in positions
  {
    if statements == [] {
      positions := [];
    } else {
      var front, last := statements[..|statements| - 1], |statements| - 1;
      var before := VerifiedExactly(front, judge);
      var valid := judge(last, statements[last]).Valid?;
      positions := before + (if valid then [last] else []);
      forall j | 0 <= j < |positions|
        ensures positions[j] < |statements|
        ensures judge(positions[j], statements[positions[j]]) == Valid(Verified(statements, judge)[j])
      {
        if j < |before| { assert front[before[j]] == statements[before[j]]; }
      }
      forall i: nat | i < |statements| && judge(i, statements[i]).Valid? ensures i in positions {
        if i < last { assert front[i] == statements[i] && i in before; } else { assert positions[|before|] == i; }
      }
    }
  }

  /** The warnings about the others, in the order of their statements. */
  function Warnings(statements: seq<SubStatement>, judge: Judge): seq<string> {
    if statements == [] then []
    else
      var last := statements[|statements| - 1];
      var verdict := judge(|statements| - 1, last);
      Warnings(statements[..|statements| - 1], judge)
      + (if verdict.Valid? then [] else [Warning(verdict, last.format)])
  }

  /** Exactly the statements that did not verify are warned about, each by its own verdict and format. */
  lemma {:induction false} WarningsExactly(statements: seq<SubStatement>, judge: Judge, w: string)
    ensures w in Warnings(statements, judge) <==>
              exists i: nat :: i < |statements| && !judge(i, statements[i]).Valid?
                && w == Warning(judge(i, statements[i]), statements[i].format)
    ensures |Warnings(statements, judge)| + |Verified(statements, judge)| == |statements|
  {
    hide Warning;
    if statements != [] {
      var front, last := statements[..|statements| - 1], |statements| - 1;
      WarningsExactly(front, judge, w);
      if w in Warnings(front, judge) {
        var i: nat :| i < |front| && !judge(i, front[i]).Valid? && w == Warning(judge(i, front[i]), front[i].format);
        assert front[i] == statements[i];
      }
      if i: nat :| i < |statements| && !judge(i, statements[i]).Valid?
                   && w == Warning(judge(i, statements[i]), statements[i].format)
      {
        if i < last { assert front[i] == statements[i]; }
      }
    }
  }

  /** What a warning says. */
  lemma WarningTexts(format: string)
    ensures Warning(NoVerifier, format) == "compound sub-statement " + "verifier missing: " + format
    ensures Warning(Failed, format) == "compound sub-statement " + "failed: " + format
    ensures Warning(Invalid, format) == "compound sub-statement " + "invalid: " + format
  {}

  predicate WellFormedStatements(statements: seq<SubStatement>) {
    |statements| >= 2 && forall i :: 0 <= i < |statements| ==>
        ValidIdentifier(statements[i].format) && statements[i].statement.Some?
  }

  predicate NoNesting(statements: seq<SubStatement>) {
    forall i :: 0 <= i < |statements| ==> statements[i].format != "compound"
  }

  function Warning(v: Verdict, format: string): string {
    match v
    case NoVerifier => "compound sub-statement verifier missing: " + format
    case Failed => "compound sub-statement failed: " + format
    case Invalid => "compound sub-statement invalid: " + format
    case Valid(_) => ""
  }

  /** Verification succeeds exactly when the statements are well formed and not nested, and enough of them verify.
      Every statement then ends as one verified result or one warning. */
  method VerifyAttestation(statements: seq<SubStatement>, policy: CompoundPolicy, judge: Judge, hasRegistry: bool)
    returns (r: Result<CompoundResult, CompoundError>)
    ensures r == Err(VerifierMissing) <==> !hasRegistry
    ensures r == Err(InvalidStatement) <==>
              && hasRegistry
              && (|| RequiredSuccesses(policy, |statements|).None?
                  || exists i :: 0 <= i < |statements| &&
                       (|| !ValidIdentifier(statements[i].format) || statements[i].statement.None?
                        || statements[i].format == "compound"))
    ensures r.Ok? ==> |Verified(statements, judge)| >= RequiredSuccesses(policy, |statements|).value
    ensures r == Err(Insufficient) ==> |Verified(statements, judge)| < RequiredSuccesses(policy, |statements|).value
    ensures r.Ok? ==> && r.value.results == Verified(statements, judge)
                      && r.value.successes == |r.value.results|
                      && r.value.warnings == Warnings(statements, judge)
                      && r.value.successes + |r.value.warnings| == |statements|
                      && Some(r.value.required) == RequiredSuccesses(policy, |statements|)
                      && 1 <= r.value.required <= r.value.successes
  {
    hide ValidIdentifier, Warning, RequiredSuccesses;
    if !hasRegistry {
      return Err(VerifierMissing);
    }
    if !WellFormedStatements(statements) {
      return Err(InvalidStatement);
    }
    var required := RequiredSuccesses(policy, |statements|);
    if required.None? {
      return Err(InvalidStatement);
    }
    var results: seq<nat> := [];
    var warnings: seq<string> := [];
    var successes := 0;
    for i := 0 to |statements|
      invariant NoNesting(statements[..i])
      invariant results == Verified(statements[..i], judge)
      invariant warnings == Warnings(statements[..i], judge)
      invariant successes == |results| && successes + |warnings| == i
    {
      if statements[i].format == "compound" {
        return Err(InvalidStatement);
      }
      assert statements[..i + 1][..i] == statements[..i];
      var verdict := judge(i, statements[i]);
      if !verdict.Valid? {
        warnings := warnings + [Warning(verdict, statements[i].format)];
        continue;
      }
      successes := successes + 1;
      results := results + [verdict.kept];
    }
    assert statements[..|statements|] == statements;
    if successes < required.value {
      return Err(Insufficient);
    }
    return Ok(CompoundResult(results, warnings, successes, required.value));
  }
}
