// The start/finish extension binding protocol: a registry freezes handler revisions, start
// normalizes inputs and records sorted bindings, stored state is validated against them, and
// finish compares them with the registry in use.
module Extensions {
  import opened Base
  import opened Values
  import opened Identifiers
  import opened InputHandlers
  import CloneWalk

  const MAX_ENTRIES := 64

  datatype ExtensionError =
    | TooMany | InvalidId | InvalidRevision | DuplicateId | BindingMismatch | Policy | InvalidState

  /** A handler's verdict on outputs. */
  datatype Verification = Verification(accepted: bool, deprecated: bool, warnings: seq<string>, output: Value)

  /** What a handler sees of one extension at finish. */
  datatype OutputRequest = OutputRequest(
    operation: Operation, requested: bool, credentialId: seq<byte>, input: Value,
    clientOutput: Option<Value>, authenticatorOutput: Option<Value>)

  /** Application code: how a handler normalizes inputs and judges outputs, under a revision. */
  datatype Handler = Handler(
    revision: string,
    validate: (Operation, Value) -> Option<Value>,
    verify: OutputRequest -> Option<Verification>)

  /** Handlers by identifier; the binding of an identifier is the identifier with the handler's revision. */
  type Registry = map<string, Handler>

  datatype Binding = Binding(id: string, revision: string)

  predicate ValidBinding(b: Binding) { ValidIdentifier(b.id) && ValidIdentifier(b.revision) }

  /** The revision that a reserved identifier must be registered with. */
  function BuiltInRevision(id: string): Option<string> {
    if id in {"appid", "appidExclude", "uvm", "credProps", "largeBlob", "prf"} then Some("webauthn-3-20260825")
    else if id == "remoteClientDataJSON" then Some("webauthn-ed-20260730")
    else None
  }

  /** The revision registered for an identifier; a nil registry holds none. */
  function CurrentRevision(registry: Option<Registry>, id: string): Option<string> {
    if registry.Some? && id in registry.value then Some(registry.value[id].revision) else None
  }

  // ----- Registry construction -----

  /** A handler with the identifier it asks to be registered under; a nil entry is None. */
  datatype Entry = Entry(id: string, handler: Handler)

  predicate ValidEntry(e: Entry) {
    && ValidIdentifier(e.id)
    && ValidIdentifier(e.handler.revision)
    && (BuiltInRevision(e.id).Some? ==> Some(e.handler.revision) == BuiltInRevision(e.id))
  }

  /** Why an entry cannot be registered, if it cannot. */
  function EntryFault(e: Entry): (r: Option<ExtensionError>)
    ensures r.None? <==> ValidEntry(e)
    ensures r.Some? ==> r.value == if ValidIdentifier(e.id) then InvalidRevision else InvalidId
  {
    if !ValidIdentifier(e.id) then Some(InvalidId)
    else if !ValidIdentifier(e.handler.revision) then Some(InvalidRevision)
    else if BuiltInRevision(e.id).Some? && e.handler.revision != BuiltInRevision(e.id).value then Some(InvalidRevision)
    else None
  }

  ghost predicate ValidRegistry(r: Registry) {
    |r| <= MAX_ENTRIES && forall id :: id in r ==> ValidEntry(Entry(id, r[id]))
  }

  /** Builds a registry from distinct valid entries, and refuses any other list. */
  method NewRegistry(entries: seq<Option<Entry>>) returns (r: Result<Registry, ExtensionError>)
    ensures r.Ok? <==> && |entries| <= MAX_ENTRIES
                       && (forall i :: 0 <= i < |entries| ==> entries[i].Some? && ValidEntry(entries[i].value))
                       && (forall i, j :: 0 <= i < j < |entries| ==> entries[i].value.id != entries[j].value.id)
    ensures r.Ok? ==> ValidRegistry(r.value)
    ensures r.Ok? ==> forall i :: 0 <= i < |entries| ==>
                        entries[i].value.id in r.value && r.value[entries[i].value.id] == entries[i].value.handler
    ensures r.Ok? ==> |r.value| == |entries|
  {
    hide ValidEntry, EntryFault;
    if |entries| > MAX_ENTRIES {
      return Err(TooMany);
    }
    var handlers: Registry := map[];
    ghost var position: map<string, nat> := map[];
    for i := 0 to |entries|
      invariant forall k :: 0 <= k < i ==> entries[k].Some? && ValidEntry(entries[k].value)
      invariant forall k :: 0 <= k < i ==>
                entries[k].value.id in handlers && handlers[entries[k].value.id] == entries[k].value.handler
      invariant forall k :: 0 <= k < i ==> entries[k].value.id in position && position[entries[k].value.id] == k
      invariant forall id :: id in handlers ==>
                id in position && position[id] < i && entries[position[id]] == Some(Entry(id, handlers[id]))
      invariant |handlers| == i
    {
      if entries[i].None? {
        return Err(InvalidId);
      }
      var entry := entries[i].value;
      var fault := EntryFault(entry);
      if fault.Some? {
        return Err(fault.value);
      }
      if entry.id in handlers {
        assert entries[position[entry.id]].value.id == entries[i].value.id;
        return Err(DuplicateId);
      }
      handlers := handlers[entry.id := entry.handler];
      position := position[entry.id := i];
    }
    return Ok(handlers);
  }

  // ----- Start -----

  type Transform = (string, Input) -> Option<Input>

  /** Whether a defensive copy of the input's value succeeds. */
  ghost predicate Copies(input: Input) { CloneWalk.CloneAccepts(InputValue(input)) }

  method CloneInput(input: Input) returns (r: Option<Input>)
    ensures r.Some? <==> Copies(input)
    ensures r.Some? ==> r.value == input
  {
    hide CloneWalk.CloneAccepts;
    var copy := CloneWalk.CloneValue(InputValue(input));
    return if copy.Ok? then Some(input) else None;
  }

  /** The input a registered handler normalizes to, both values surviving a defensive copy. */
  ghost function Normalized(handler: Handler, operation: Operation, input: Input): Option<Input> {
    if !Copies(input) then None
    else
      match handler.validate(operation, InputValue(input))
      case None => None
      case Some(v) => if CloneWalk.CloneAccepts(v) then Some(Restored(v)) else None
  }

  method NormalizeRegisteredInput(handler: Handler, operation: Operation, input: Input) returns (r: Option<Input>)
    ensures r == Normalized(handler, operation, input)
  {
    hide CloneWalk.CloneAccepts;
    var raw := CloneWalk.CloneValue(InputValue(input));
    if raw.Err? {
      return None;
    }
    var normalized := handler.validate(operation, raw.value);
    if normalized.None? {
      return None;
    }
    var copy := CloneWalk.CloneValue(normalized.value);
    return if copy.Ok? then Some(Restored(copy.value)) else None;
  }

  /** How start prepares one requested input, or None where it refuses the request. */
  ghost function Prepared(operation: Operation, registry: Registry, rejectUnknown: bool, transform: Transform,
                          id: string, input: Input): Option<Input>
  {
    if !ValidIdentifier(id) || !Copies(input) then None
    else
      match transform(id, input)
      case None => None
      case Some(v) =>
        if id in registry then Normalized(registry[id], operation, v)
        else if BuiltInRevision(id).Some? || rejectUnknown then None
        else Some(v)
  }

  method PrepareOne(operation: Operation, registry: Registry, rejectUnknown: bool, transform: Transform,
                    id: string, input: Input) returns (r: Option<Input>)
    ensures r == Prepared(operation, registry, rejectUnknown, transform, id, input)
  {
    hide Copies, Normalized, ValidIdentifier, BuiltInRevision;
    if !ValidIdentifier(id) {
      return None;
    }
    var value := CloneInput(input);
    if value.None? {
      return None;
    }
    var transformed := transform(id, value.value);
    if transformed.None? {
      return None;
    }
    if id !in registry {
      if BuiltInRevision(id).Some? || rejectUnknown {
        return None;
      }
      return transformed;
    }
    r := NormalizeRegisteredInput(registry[id], operation, transformed.value);
  }

  /** The inputs a ceremony keeps, with the bindings frozen beside them. */
  datatype Requested = Requested(inputs: map<string, Input>, bindings: seq<Binding>)

  predicate SortedBindings(bindings: seq<Binding>) {
    forall i, j :: 0 <= i < j < |bindings| ==> Before(bindings[i].id, bindings[j].id)
  }

  /** The bindings are exactly those of the requested identifiers that the registry holds, sorted. */
  ghost predicate Freezes(bindings: seq<Binding>, registry: Option<Registry>, ids: set<string>) {
    && SortedBindings(bindings)
    && (forall i :: 0 <= i < |bindings| ==>
          bindings[i].id in ids && CurrentRevision(registry, bindings[i].id) == Some(bindings[i].revision))
    && (forall id :: id in ids && CurrentRevision(registry, id).Some? ==>
          Binding(id, CurrentRevision(registry, id).value) in bindings)
  }

  /** Start's walk over the requested identifiers in sorted order. */
  method PrepareSorted(operation: Operation, inputs: map<string, Input>, registry: Registry, rejectUnknown: bool,
                       transform: Transform) returns (r: Result<Requested, ExtensionError>)
    ensures r.Ok? <==> forall id :: id in inputs ==>
                         Prepared(operation, registry, rejectUnknown, transform, id, inputs[id]).Some?
    ensures r.Ok? ==> r.value.inputs.Keys == inputs.Keys
    ensures r.Ok? ==> forall id :: id in inputs ==>
                        Some(r.value.inputs[id]) == Prepared(operation, registry, rejectUnknown, transform, id,
                            inputs[id])
    ensures r.Ok? ==> Freezes(r.value.bindings, Some(registry), inputs.Keys) && |r.value.bindings| <= |inputs|
  {
    hide Before, Prepared, Freezes;
    NothingFrozen(registry);
    var ids := SortedKeys(inputs.Keys);
    var out: map<string, Input> := map[];
    var bindings: seq<Binding> := [];
    assert out.Keys == {};
    for i := 0 to |ids|
      invariant forall k :: 0 <= k < i ==> ids[k] in out
      invariant forall id :: id in out ==>
                  id in inputs && Some(out[id]) == Prepared(operation, registry, rejectUnknown, transform, id,
                      inputs[id])
      invariant forall id, k :: id in out && i <= k < |ids| ==> Before(id, ids[k])
      invariant Freezes(bindings, Some(registry), out.Keys) && |bindings| <= i
    {
      var id := ids[i];
      var value := PrepareOne(operation, registry, rejectUnknown, transform, id, inputs[id]);
      if value.None? {
        return Err(Policy);
      }
      FreezeNext(bindings, registry, out.Keys, id);
      assert out[id := value.value].Keys == out.Keys + {id};
      out := out[id := value.value];
      if id in registry {
        bindings := bindings + [Binding(id, registry[id].revision)];
      }
    }
    assert out.Keys == inputs.Keys;
    return Ok(Requested(out, bindings));
  }

  lemma NothingFrozen(registry: Registry)
    ensures Freezes([], Some(registry), {})
  {}

  lemma RegisteredRevision(registry: Registry, id: string)
    ensures CurrentRevision(Some(registry), id) == if id in registry then Some(registry[id].revision) else None
  {}

  lemma FreezeLast(bindings: seq<Binding>, registry: Option<Registry>, done: set<string>, last: Binding)
    requires Freezes(bindings, registry, done)
    requires forall earlier :: earlier in done ==> Before(earlier, last.id)
    requires CurrentRevision(registry, last.id) == Some(last.revision)
    ensures Freezes(bindings + [last], registry, done + {last.id})
  {
    hide Before, CurrentRevision;
    var next := bindings + [last];
    assert next[|bindings|] == last;
    forall id | id in done + {last.id} && CurrentRevision(registry, id).Some?
      ensures Binding(id, CurrentRevision(registry, id).value) in next
    {
      if id != last.id {
        assert Binding(id, CurrentRevision(registry, id).value) in bindings;
      }
    }
  }

  /** Appending the binding of a later identifier, if it is registered, freezes one more identifier. */
  lemma FreezeNext(bindings: seq<Binding>, registry: Registry, done: set<string>, id: string)
    requires Freezes(bindings, Some(registry), done)
    requires forall earlier :: earlier in done ==> Before(earlier, id)
    ensures Freezes(if id in registry then bindings + [Binding(id, registry[id].revision)] else bindings,
                    Some(registry), done + {id})
  {
    hide Before, CurrentRevision;
    RegisteredRevision(registry, id);
    if id in registry {
      FreezeLast(bindings, Some(registry), done, Binding(id, registry[id].revision));
    }
  }

  ghost predicate Preparable(operation: Operation, inputs: map<string, Input>, registry: Option<Registry>,
                             rejectUnknown: bool, transform: Transform)
  {
    inputs == map[] ||
    (&& |inputs| <= MAX_ENTRIES
     && registry.Some?
     && forall id :: id in inputs ==>
          Prepared(operation, registry.value, rejectUnknown, transform, id, inputs[id]).Some?)
  }

  /** The inputs start keeps, each as its handler normalized it. */
  ghost function PreparedInputs(operation: Operation, inputs: map<string, Input>, registry: Option<Registry>,
                                rejectUnknown: bool, transform: Transform): map<string, Input>
    requires Preparable(operation, inputs, registry, rejectUnknown, transform)
  {
    map id | id in inputs :: Prepared(operation, registry.value, rejectUnknown, transform, id, inputs[id]).value
  }

  method PrepareExtensionInputs(operation: Operation, inputs: map<string, Input>, registry: Option<Registry>,
                                rejectUnknown: bool, transform: Transform)
    returns (r: Result<Requested, ExtensionError>)
    ensures r.Ok? <==> Preparable(operation, inputs, registry, rejectUnknown, transform)
    ensures r.Ok? ==> r.value.inputs == PreparedInputs(operation, inputs, registry, rejectUnknown, transform)
    ensures r.Ok? ==> r.value.inputs.Keys == inputs.Keys
    ensures r.Ok? ==> Freezes(r.value.bindings, registry, inputs.Keys) && |r.value.bindings| <= |inputs| <= MAX_ENTRIES
  {
    hide Prepared;
    if |inputs| == 0 {
      assert inputs == map[];
      return Ok(Requested(map[], []));
    }
    if |inputs| > MAX_ENTRIES {
      return Err(TooMany);
    }
    if registry.None? {
      return Err(Policy);
    }
    r := PrepareSorted(operation, inputs, registry.value, rejectUnknown, transform);
  }

  // ----- Stored state -----

  method ValidateRequestedIds(inputs: map<string, Input>) returns (ok: bool)
    ensures ok <==> |inputs| <= MAX_ENTRIES && forall id :: id in inputs ==> ValidIdentifier(id)
  {
    hide ValidIdentifier;
    if |inputs| > MAX_ENTRIES {
      return false;
    }
    var pending := inputs.Keys;
    while pending != {}
      invariant pending <= inputs.Keys
      invariant forall id :: id in inputs && id !in pending ==> ValidIdentifier(id)
      decreases |pending|
    {
      var id :| id in pending;
      if !ValidIdentifier(id) {
        return false;
      }
      pending := pending - {id};
    }
    return true;
  }

  /** What stored bindings must satisfy, whatever registry produced them. */
  ghost predicate WellBound(inputs: map<string, Input>, bindings: seq<Binding>) {
    && |bindings| <= MAX_ENTRIES
    && SortedBindings(bindings)
    && (forall i :: 0 <= i < |bindings| ==> ValidBinding(bindings[i]) && bindings[i].id in inputs)
    && (forall id :: id in inputs && BuiltInRevision(id).Some? ==> Binding(id, BuiltInRevision(id).value) in bindings)
  }

  /** No binding comes before its predecessor; equal neighbours are left to the caller's loop. */
  predicate IsSorted(bindings: seq<Binding>) {
    forall i :: 0 < i < |bindings| ==> !Before(bindings[i].id, bindings[i - 1].id)
  }

  lemma {:induction false} SortedFromNeighbours(bindings: seq<Binding>, n: nat)
    requires n <= |bindings|
    requires forall i :: 0 < i < n ==> Before(bindings[i - 1].id, bindings[i].id)
    ensures SortedBindings(bindings[..n])
  {
    hide Before;
    if n > 1 {
      SortedFromNeighbours(bindings, n - 1);
      var front := bindings[..n - 1];
      forall i | 0 <= i < n - 1 ensures Before(bindings[i].id, bindings[n - 1].id) {
        if i < n - 2 {
          assert Before(front[i].id, front[n - 2].id);
          BeforeIsTransitive(bindings[i].id, bindings[n - 2].id, bindings[n - 1].id);
        }
      }
      forall i, j | 0 <= i < j < n ensures Before(bindings[i].id, bindings[j].id) {
        if j < n - 1 { assert Before(front[i].id, front[j].id); }
      }
    }
  }

  lemma DistinctBindings(bindings: seq<Binding>, i: nat, j: nat)
    requires SortedBindings(bindings) && i < |bindings| && j < |bindings| && bindings[i].id == bindings[j].id
    ensures i == j
  {
    hide Before;
    if i < j { BeforeIsStrict(bindings[i].id, bindings[j].id); }
    if j < i { BeforeIsStrict(bindings[j].id, bindings[i].id); }
  }

  /** The first `n` bindings are valid, requested and strictly increasing. */
  ghost predicate GoodPrefix(inputs: map<string, Input>, bindings: seq<Binding>, n: nat)
    requires n <= |bindings|
  {
    && (forall k :: 0 <= k < n ==> ValidBinding(bindings[k]) && bindings[k].id in inputs)
    && (forall k :: 0 < k < n ==> Before(bindings[k - 1].id, bindings[k].id))
  }

  lemma GoodWhole(inputs: map<string, Input>, bindings: seq<Binding>)
    ensures GoodPrefix(inputs, bindings, |bindings|) <==>
              (&& SortedBindings(bindings)
               && forall i :: 0 <= i < |bindings| ==> ValidBinding(bindings[i]) && bindings[i].id in inputs)
  {
    hide Before, ValidBinding;
    if GoodPrefix(inputs, bindings, |bindings|) {
      SortedFromNeighbours(bindings, |bindings|);
      assert bindings[..|bindings|] == bindings;
    }
  }

  /** In a sorted list, the checks of one loop turn are what extends a good prefix. */
  lemma GoodStep(inputs: map<string, Input>, bindings: seq<Binding>, i: nat)
    requires i < |bindings| && IsSorted(bindings) && GoodPrefix(inputs, bindings, i)
    ensures GoodPrefix(inputs, bindings, i + 1) <==>
              (&& ValidBinding(bindings[i])
               && bindings[i].id in inputs
               && bindings[i].id != (if i == 0 then "" else bindings[i - 1].id))
    ensures GoodPrefix(inputs, bindings, |bindings|) ==> GoodPrefix(inputs, bindings, i + 1)
  {
    hide Before;
    if i > 0 {
      BeforeIsTotal(bindings[i - 1].id, bindings[i].id);
      BeforeIsStrict(bindings[i - 1].id, bindings[i].id);
    }
  }

  /** One pass over sorted bindings: each valid, new and requested. */
  method CollectBindings(inputs: map<string, Input>, bindings: seq<Binding>)
    returns (r: Option<map<string, string>>)
    requires IsSorted(bindings)
    ensures r.Some? <==> GoodPrefix(inputs, bindings, |bindings|)
    ensures r.Some? ==> forall id :: id in r.value ==> Binding(id, r.value[id]) in bindings
    ensures r.Some? ==> forall i :: 0 <= i < |bindings| ==>
              bindings[i].id in r.value && r.value[bindings[i].id] == bindings[i].revision
  {
    hide Before, ValidBinding, GoodPrefix, IsSorted;
    NoBindings(inputs, bindings);
    var bound: map<string, string> := map[];
    var previous := "";
    for i := 0 to |bindings|
      invariant previous == if i == 0 then "" else bindings[i - 1].id
      invariant GoodPrefix(inputs, bindings, i)
      invariant forall id :: id in bound ==> Binding(id, bound[id]) in bindings
      invariant forall k :: 0 <= k < i ==> bindings[k].id in bound && bound[bindings[k].id] == bindings[k].revision
    {
      var binding := bindings[i];
      GoodStep(inputs, bindings, i);
      if !ValidBinding(binding) || binding.id == previous {
        return None;
      }
      if binding.id !in inputs {
        return None;
      }
      NewAtEnd(inputs, bindings, i);
      bound := bound[binding.id := binding.revision];
      previous := binding.id;
    }
    return Some(bound);
  }

  lemma NoBindings(inputs: map<string, Input>, bindings: seq<Binding>)
    ensures GoodPrefix(inputs, bindings, 0)
  {}

  lemma NewAtEnd(inputs: map<string, Input>, bindings: seq<Binding>, i: nat)
    requires i < |bindings| && GoodPrefix(inputs, bindings, i + 1)
    ensures forall k :: 0 <= k < i ==> bindings[k].id != bindings[i].id
  {
    hide Before;
    SortedFromNeighbours(bindings, i + 1);
    var front := bindings[..i + 1];
    forall k | 0 <= k < i ensures bindings[k].id != bindings[i].id {
      assert Before(front[k].id, front[i].id);
      BeforeIsStrict(bindings[k].id, bindings[i].id);
    }
  }

  lemma UnsortedIsNotStrict(bindings: seq<Binding>)
    requires !IsSorted(bindings)
    ensures !SortedBindings(bindings)
  {
    hide Before;
    var i :| 0 < i < |bindings| && Before(bindings[i].id, bindings[i - 1].id);
    BeforeIsStrict(bindings[i - 1].id, bindings[i].id);
  }

  /** Every reserved identifier that was requested is bound with its revision. */
  method ReservedAreBound(inputs: map<string, Input>, bindings: seq<Binding>,
                          bound: map<string, string>) returns (ok: bool)
    requires forall id :: id in bound ==> Binding(id, bound[id]) in bindings
    requires forall i :: 0 <= i < |bindings| ==>
              bindings[i].id in bound && bound[bindings[i].id] == bindings[i].revision
    ensures ok <==> forall id :: id in inputs && BuiltInRevision(id).Some? ==>
                      Binding(id, BuiltInRevision(id).value) in bindings
  {
    hide BuiltInRevision;
    var pending := inputs.Keys;
    while pending != {}
      invariant pending <= inputs.Keys
      invariant forall id :: id in inputs && id !in pending && BuiltInRevision(id).Some? ==>
                  Binding(id, BuiltInRevision(id).value) in bindings
      decreases |pending|
    {
      var id :| id in pending;
      var expected := BuiltInRevision(id);
      if expected.Some? && (id !in bound || bound[id] != expected.value) {
        assert Binding(id, expected.value) !in bindings;
        return false;
      }
      pending := pending - {id};
    }
    return true;
  }

  method ValidateBindingState(inputs: map<string, Input>, bindings: seq<Binding>) returns (ok: bool)
    ensures ok <==> WellBound(inputs, bindings)
  {
    hide Before, ValidBinding, BuiltInRevision, GoodPrefix, SortedBindings, IsSorted;
    if |bindings| > MAX_ENTRIES {
      return false;
    }
    if !IsSorted(bindings) {
      UnsortedIsNotStrict(bindings);
      return false;
    }
    GoodWhole(inputs, bindings);
    var bound := CollectBindings(inputs, bindings);
    if bound.None? {
      return false;
    }
    ok := ReservedAreBound(inputs, bindings, bound.value);
  }

  // ----- Finish -----

  /** The revision recorded for an identifier; a later binding overwrites an earlier one. */
  function RecordedRevision(bindings: seq<Binding>, id: string): Option<string> {
    if bindings == [] then None
    else if bindings[|bindings| - 1].id == id then Some(bindings[|bindings| - 1].revision)
    else RecordedRevision(bindings[..|bindings| - 1], id)
  }

  method ValidateFinishBindings(requested: map<string, Input>, bindings: seq<Binding>, registry: Option<Registry>)
    returns (ok: bool)
    ensures ok <==> forall id :: id in requested ==> RecordedRevision(bindings, id) == CurrentRevision(registry, id)
  {
    var bound: map<string, string> := map[];
    for i := 0 to |bindings|
      invariant forall id :: (if id in bound then Some(bound[id]) else None) == RecordedRevision(bindings[..i], id)
    {
      bound := bound[bindings[i].id := bindings[i].revision];
      assert bindings[..i + 1][..i] == bindings[..i];
    }
    assert bindings[..|bindings|] == bindings;
    var pending := requested.Keys;
    while pending != {}
      invariant pending <= requested.Keys
      invariant forall id :: id in requested && id !in pending ==>
                  RecordedRevision(bindings, id) == CurrentRevision(registry, id)
      decreases |pending|
    {
      var id :| id in pending;
      var wasKnown, current := id in bound, CurrentRevision(registry, id);
      if wasKnown && (current.None? || current.value != bound[id]) {
        return false;
      }
      if !wasKnown && current.Some? {
        return false;
      }
      pending := pending - {id};
    }
    return true;
  }

  // ----- The protocol -----

  lemma {:induction false} RecordedIffBound(bindings: seq<Binding>, id: string, revision: string)
    requires SortedBindings(bindings)
    ensures RecordedRevision(bindings, id) == Some(revision) <==> Binding(id, revision) in bindings
  {
    hide Before;
    if bindings != [] {
      var last := |bindings| - 1;
      RecordedIffBound(bindings[..last], id, revision);
      if Binding(id, revision) in bindings && bindings[last].id == id {
        var k :| 0 <= k < |bindings| && bindings[k] == Binding(id, revision);
        DistinctBindings(bindings, k, last);
      }
      assert bindings == bindings[..last] + [bindings[last]];
    }
  }

  /** What start freezes is what finish reads back for every requested identifier. */
  lemma RecordedIsFrozen(bindings: seq<Binding>, registry: Option<Registry>, ids: set<string>, id: string)
    requires Freezes(bindings, registry, ids) && id in ids
    ensures RecordedRevision(bindings, id) == CurrentRevision(registry, id)
  {
    hide Before, CurrentRevision;
    var current, recorded := CurrentRevision(registry, id), RecordedRevision(bindings, id);
    if current.Some? { RecordedIffBound(bindings, id, current.value); }
    if recorded.Some? { RecordedIffBound(bindings, id, recorded.value); }
  }

  /** Start under a valid registry establishes what stored-state validation demands. */
  lemma StartEstablishesBindings(operation: Operation, inputs: map<string, Input>, registry: Option<Registry>,
                                 rejectUnknown: bool, transform: Transform, prepared: Requested)
    requires registry.Some? ==> ValidRegistry(registry.value)
    requires Preparable(operation, inputs, registry, rejectUnknown, transform)
    requires prepared.inputs.Keys == inputs.Keys
    requires Freezes(prepared.bindings, registry, inputs.Keys) && |prepared.bindings| <= |inputs| <= MAX_ENTRIES
    ensures |prepared.inputs| <= MAX_ENTRIES && forall id :: id in prepared.inputs ==> ValidIdentifier(id)
    ensures WellBound(prepared.inputs, prepared.bindings)
  {
    hide ValidIdentifier, BuiltInRevision, Copies, Normalized, Before;
    assert |prepared.inputs| == |prepared.inputs.Keys| == |inputs.Keys|;
    forall i | 0 <= i < |prepared.bindings|
      ensures ValidBinding(prepared.bindings[i])
    {
      var b := prepared.bindings[i];
      assert ValidEntry(Entry(b.id, registry.value[b.id]));
    }
    forall id | id in inputs && BuiltInRevision(id).Some?
      ensures Binding(id, BuiltInRevision(id).value) in prepared.bindings
    {
      assert id in registry.value && ValidEntry(Entry(id, registry.value[id]));
    }
  }

  /** Finish accepts a started state exactly when its registry agrees with the start registry on every requested
      identifier, in presence and in revision. */
  lemma FinishAcceptsExactly(requested: map<string, Input>, bindings: seq<Binding>,
                             atStart: Option<Registry>, atFinish: Option<Registry>)
    requires Freezes(bindings, atStart, requested.Keys)
    ensures (forall id :: id in requested ==> RecordedRevision(bindings, id) == CurrentRevision(atFinish, id))
            <==>
            (forall id :: id in requested ==> CurrentRevision(atStart, id) == CurrentRevision(atFinish, id))
  {
    hide CurrentRevision, Freezes;
    forall id | id in requested
      ensures RecordedRevision(bindings, id) == CurrentRevision(atStart, id)
    {
      RecordedIsFrozen(bindings, atStart, requested.Keys, id);
    }
  }
}
