// Verification of extension outputs at finish: which identifiers are worked on, in which
// order, and when a handler runs.
module ExtensionResults {
  import opened Base
  import opened Values
  import opened Identifiers
  import opened InputHandlers
  import opened Extensions
  import CloneWalk

  datatype Work = Work(
    operation: Operation, credentialId: seq<byte>, registry: Option<Registry>,
    rejectUnrequested: bool, rejectUnknown: bool, transform: Transform,
    requested: map<string, Input>, client: map<string, Value>, authenticator: map<string, Value>)

  /** A handler's verdict with the revision it was given under, or values kept without one. */
  datatype ExtensionResult =
    | Verified(id: string, revision: string, verification: Verification)
    | Preserved(id: string, requested: bool, input: Option<Value>, clientOutput: Option<Value>,
        authenticatorOutput: Option<Value>)

  predicate Accepted(r: ExtensionResult) { r.Verified? && r.verification.accepted }

  function ValueAt(values: map<string, Value>, id: string): Option<Value> {
    if id in values then Some(values[id]) else None
  }

  predicate Known(w: Work, id: string) { CurrentRevision(w.registry, id).Some? }

  predicate HasOutput(w: Work, id: string) { id in w.client || id in w.authenticator }

  /** The output policy refuses the identifier. */
  predicate PolicyRefuses(w: Work, id: string) {
    HasOutput(w, id) && ((w.rejectUnknown && !Known(w, id)) || (w.rejectUnrequested && id !in w.requested))
  }

  /** The value a requested input has after the ceremony's transform; Err where the transform refuses it. */
  function TransformedInput(w: Work, id: string): Result<Option<Value>, ExtensionError> {
    if id !in w.requested then Ok(None)
    else
      match w.transform(id, w.requested[id])
      case None => Err(Policy)
      case Some(input) => Ok(Some(InputValue(input)))
  }

  ghost predicate CopiesValue(v: Option<Value>) { v.Some? ==> CloneWalk.CloneAccepts(v.value) }

  /** What the registered handler says about a requested input and its outputs. */
  ghost function HandlerResult(w: Work, id: string, input: Value): Option<ExtensionResult>
    requires Known(w, id)
  {
    var handler := w.registry.value[id];
    match handler.validate(w.operation, input)
    case None => None
    case Some(normalized) =>
      match handler.verify(OutputRequest(w.operation, true, w.credentialId, normalized,
                                         ValueAt(w.client, id), ValueAt(w.authenticator, id)))
      case None => None
      case Some(v) => if CloneWalk.CloneAccepts(v.output) then Some(Verified(id, handler.revision, v)) else None
  }

  /** The result of one identifier that is requested or has an output, or None for a refusal. */
  ghost function ResultOf(w: Work, id: string): Option<ExtensionResult> {
    var input, client, authenticator := TransformedInput(w, id), ValueAt(w.client, id), ValueAt(w.authenticator, id);
    if PolicyRefuses(w, id) || input.Err? || !CopiesValue(input.value) || !CopiesValue(authenticator) then None
    else if id in w.requested && Known(w, id) then HandlerResult(w, id, input.value.value)
    else if !CopiesValue(client) then None
    else Some(Preserved(id, id in w.requested, input.value, client, authenticator))
  }

  method CopyOptional(v: Option<Value>) returns (ok: bool)
    ensures ok <==> CopiesValue(v)
  {
    hide CloneWalk.CloneAccepts;
    if v.None? {
      return true;
    }
    var copy := CloneWalk.CloneValue(v.value);
    return copy.Ok?;
  }

  /** Runs a registered handler: its input check again, then its output check. */
  method VerifyOutput(w: Work, id: string, input: Value) returns (r: Option<ExtensionResult>)
    requires Known(w, id)
    ensures r == HandlerResult(w, id, input)
  {
    hide CloneWalk.CloneAccepts;
    var handler := w.registry.value[id];
    var normalized := handler.validate(w.operation, input);
    if normalized.None? {
      return None;
    }
    var verification := handler.verify(OutputRequest(w.operation, true, w.credentialId, normalized.value,
                                                     ValueAt(w.client, id), ValueAt(w.authenticator, id)));
    if verification.None? {
      return None;
    }
    var output := CloneWalk.CloneValue(verification.value.output);
    return if output.Ok? then Some(Verified(id, handler.revision, verification.value)) else None;
  }

  method VerifyExtension(w: Work, id: string) returns (r: Option<ExtensionResult>)
    requires id in w.requested || HasOutput(w, id)
    ensures r == ResultOf(w, id)
  {
    hide CopiesValue, HandlerResult;
    var requested, known, hasOutput := id in w.requested, Known(w, id), HasOutput(w, id);
    if !known && hasOutput && w.rejectUnknown {
      return None;
    }
    if !requested && hasOutput && w.rejectUnrequested {
      return None;
    }
    var input := TransformedInput(w, id);
    if input.Err? {
      return None;
    }
    var inputCopied := CopyOptional(input.value);
    if !inputCopied {
      return None;
    }
    var outputCopied := CopyOptional(ValueAt(w.authenticator, id));
    if !outputCopied {
      return None;
    }
    if (!requested && hasOutput) || !known {
      var clientCopied := CopyOptional(ValueAt(w.client, id));
      if !clientCopied {
        return None;
      }
      return Some(Preserved(id, requested, input.value, ValueAt(w.client, id), ValueAt(w.authenticator, id)));
    }
    r := VerifyOutput(w, id, input.value.value);
  }

  /** Every identifier that is requested or has an output. */
  function WorkIds(w: Work): set<string> { w.requested.Keys + w.client.Keys + w.authenticator.Keys }

  predicate WithinWork(w: Work) {
    && |w.requested| <= MAX_ENTRIES && |w.client| <= MAX_ENTRIES && |w.authenticator| <= MAX_ENTRIES
    && |WorkIds(w)| <= MAX_ENTRIES
    && ValidIds(WorkIds(w))
  }

  predicate ValidIds(ids: set<string>) { forall id :: id in ids ==> ValidIdentifier(id) }

  lemma ValidParts(w: Work)
    ensures ValidIds(WorkIds(w)) <==>
            ValidIds(w.requested.Keys) && ValidIds(w.client.Keys) && ValidIds(w.authenticator.Keys)
  {
    hide ValidIdentifier;
    if ValidIds(w.requested.Keys) && ValidIds(w.client.Keys) && ValidIds(w.authenticator.Keys) {
      forall id | id in WorkIds(w) ensures ValidIdentifier(id) {}
    }
  }

  /** Checks the identifiers of one map and adds them to those collected so far. */
  method AddIds(keys: set<string>, ids: set<string>) returns (ok: bool, all: set<string>)
    ensures ok <==> ValidIds(keys)
    ensures ok ==> all == ids + keys
  {
    hide ValidIdentifier;
    all := ids;
    var pending := keys;
    while pending != {}
      invariant pending <= keys && all == ids + (keys - pending)
      invariant forall id :: id in keys && id !in pending ==> ValidIdentifier(id)
      decreases |pending|
    {
      var id :| id in pending;
      if !ValidIdentifier(id) {
        return false, all;
      }
      all, pending := all + {id}, pending - {id};
    }
    return true, all;
  }

  lemma WorkIdsInOrder(w: Work)
    ensures WorkIds(w) == {} + w.requested.Keys + w.client.Keys + w.authenticator.Keys
  {}

  /** Checks and collects the identifiers of all three maps. */
  method CollectIds(w: Work) returns (ok: bool, ids: set<string>)
    ensures ok <==> ValidIds(WorkIds(w))
    ensures ok ==> ids == WorkIds(w)
  {
    hide ValidIds, WorkIds;
    ValidParts(w);
    WorkIdsInOrder(w);
    ok, ids := AddIds(w.requested.Keys, {});
    if !ok {
      return;
    }
    ok, ids := AddIds(w.client.Keys, ids);
    if !ok {
      return;
    }
    ok, ids := AddIds(w.authenticator.Keys, ids);
  }

  method ValidateExtensionWork(w: Work) returns (r: Result<set<string>, ExtensionError>)
    ensures r.Ok? <==> WithinWork(w)
    ensures r.Ok? ==> r.value == WorkIds(w)
  {
    hide ValidIds, WorkIds;
    if |w.requested| > MAX_ENTRIES || |w.client| > MAX_ENTRIES || |w.authenticator| > MAX_ENTRIES {
      return Err(TooMany);
    }
    var ok, ids := CollectIds(w);
    if !ok {
      return Err(InvalidId);
    }
    if |ids| > MAX_ENTRIES {
      return Err(TooMany);
    }
    return Ok(ids);
  }

  /** The identifiers that a list of results speaks about, in order. */
  function ResultIds(results: seq<ExtensionResult>): seq<string> {
    seq(|results|, i requires 0 <= i < |results| => results[i].id)
  }

  /** Results for every worked identifier, strictly sorted, each the one ResultOf names. */
  ghost predicate Complete(w: Work, results: seq<ExtensionResult>) {
    && StrictlySorted(ResultIds(results))
    && SameElements(ResultIds(results), WorkIds(w))
    && forall i :: 0 <= i < |results| ==> ResultOf(w, results[i].id) == Some(results[i])
  }

  lemma ResultKeepsId(w: Work, id: string)
    ensures ResultOf(w, id).Some? ==> ResultOf(w, id).value.id == id
  {}

  method VerifyExtensions(w: Work) returns (r: Result<seq<ExtensionResult>, ExtensionError>)
    ensures r.Ok? <==> WithinWork(w) && forall id :: id in WorkIds(w) ==> ResultOf(w, id).Some?
    ensures r.Ok? ==> Complete(w, r.value)
  {
    hide ResultOf, WithinWork, Before;
    var ids := ValidateExtensionWork(w);
    if ids.Err? {
      return Err(ids.error);
    }
    var order := SortedKeys(ids.value);
    var results: seq<ExtensionResult> := [];
    for i := 0 to |order|
      invariant |results| == i
      invariant forall k :: 0 <= k < i ==> results[k].id == order[k] && ResultOf(w, order[k]) == Some(results[k])
    {
      ResultKeepsId(w, order[i]);
      var result := VerifyExtension(w, order[i]);
      if result.None? {
        return Err(Policy);
      }
      results := results + [result.value];
    }
    assert ResultIds(results) == order;
    return Ok(results);
  }

  /** A result is accepted only for a requested and registered identifier whose handler accepted its input and its
      outputs; every other result keeps the raw values unaccepted. */
  lemma AcceptedOnlyByHandler(w: Work, results: seq<ExtensionResult>, i: nat)
    requires Complete(w, results) && i < |results|
    ensures var id := results[i].id;
            results[i].Verified? <==> id in w.requested && Known(w, id)
    ensures Accepted(results[i]) ==>
              var id := results[i].id;
              && CurrentRevision(w.registry, id) == Some(results[i].revision)
              && w.registry.value[id].validate(w.operation, TransformedInput(w, id).value.value).Some?
              && w.registry.value[id].verify(
                   OutputRequest(w.operation, true, w.credentialId,
                                 w.registry.value[id].validate(w.operation, TransformedInput(w, id).value.value).value,
                                 ValueAt(w.client, id), ValueAt(w.authenticator, id)))
                 == Some(results[i].verification)
    ensures results[i].Preserved? ==>
              var id := results[i].id;
              && results[i].requested == (id in w.requested)
              && Ok(results[i].input) == TransformedInput(w, id)
              && results[i].clientOutput == ValueAt(w.client, id)
              && results[i].authenticatorOutput == ValueAt(w.authenticator, id)
  {
    assert ResultOf(w, results[i].id) == Some(results[i]);
    hide CloneWalk.CloneAccepts, StrictlySorted, SameElements;
  }

  /** The identifiers of the results do not depend on the order in which maps are visited. */
  lemma ResultsAreDetermined(w: Work, a: seq<ExtensionResult>, b: seq<ExtensionResult>)
    requires Complete(w, a) && Complete(w, b)
    ensures a == b
  {
    hide ResultOf, StrictlySorted, SameElements, WorkIds;
    SortedIsUnique(ResultIds(a), ResultIds(b), WorkIds(w));
    assert |a| == |ResultIds(a)| == |ResultIds(b)| == |b|;
    forall i | 0 <= i < |a| ensures a[i] == b[i] {
      assert ResultIds(a)[i] == ResultIds(b)[i];
    }
  }
}
