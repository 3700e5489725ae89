// The defensive copy of extension values: a walk that charges a shared budget
// greedily, node by node, and visits map entries in an arbitrary order.
module CloneWalk {
  import opened Base
  import opened Values

  const DEFAULT_MAX_DEPTH := 32
  const DEFAULT_MAX_NODES := 4096
  const DEFAULT_MAX_BYTES := 0x10_0000

  datatype Limits = Limits(maxDepth: int, maxNodes: int, maxBytes: int)

  datatype CloneError = InvalidRequest

  function OrDefault(limits: Limits): Limits {
    Limits(if limits.maxDepth == 0 then DEFAULT_MAX_DEPTH else limits.maxDepth,
           if limits.maxNodes == 0 then DEFAULT_MAX_NODES else limits.maxNodes,
           if limits.maxBytes == 0 then DEFAULT_MAX_BYTES else limits.maxBytes)
  }

  // ----- What a copy needs, stated on the whole tree -----

  /** Known types only, and no leaf more than `room` levels below the root. */
  predicate Copyable(v: Value, room: int) {
    && room >= 0
    && !v.Foreign?
    && (v.List? ==> forall i :: 0 <= i < |v.items| ==> Copyable(v.items[i], room - 1))
    && (v.Object? ==> forall k :: k in v.fields ==> Copyable(v.fields[k], room - 1))
  }

  /** A value that the package-default copy accepts. */
  ghost predicate CloneAccepts(v: Value) {
    Copyable(v, DEFAULT_MAX_DEPTH) && TreeSize(v, Nodes) <= DEFAULT_MAX_NODES
        && TreeSize(v, Octets) <= DEFAULT_MAX_BYTES
  }

  // ----- The walk -----

  class CloneBudget {
    const limits: Limits
    var nodes: int
    var bytes: int

    ghost predicate Valid()
      reads this
    {
      0 <= nodes <= limits.maxNodes && 0 <= bytes <= limits.maxBytes
    }

    constructor (limits: Limits)
      requires 0 <= limits.maxNodes && 0 <= limits.maxBytes
      ensures Valid() && this.limits == limits && nodes == 0 && bytes == 0
    {
      this.limits := limits;
      nodes, bytes := 0, 0;
    }

    /** Charges the budget, or leaves it unchanged when the charge does not fit. */
    method Consume(moreNodes: int, moreBytes: int) returns (ok: bool)
      requires Valid()
      modifies this
      ensures Valid()
      ensures ok <==> moreNodes >= 0 && moreBytes >= 0
                      && old(nodes) + moreNodes <= limits.maxNodes && old(bytes) + moreBytes <= limits.maxBytes
      ensures nodes == old(nodes) + (if ok then moreNodes else 0)
      ensures bytes == old(bytes) + (if ok then moreBytes else 0)
    {
      if moreNodes < 0 || moreBytes < 0 || nodes > limits.maxNodes - moreNodes || bytes > limits.maxBytes - moreBytes {
        return false;
      }
      nodes, bytes := nodes + moreNodes, bytes + moreBytes;
      return true;
    }
  }

  lemma {:induction false} AllowedNodes(ids: seq<string>, n: nat)
    requires n <= |ids|
    ensures AllowedSize(ids, n, Nodes) == n
  {
    if n != 0 { AllowedNodes(ids, n - 1); }
  }

  /** The charge for a PRF input, accumulated over its credential list and map. */
  method PrfDirectCost(p: PrfInput) returns (nodes: nat, bytes: nat)
    ensures nodes == PrfSize(p, Nodes) && bytes == PrfSize(p, Octets)
  {
    hide PairsSize;
    var ids, pairs := IdsOf(p), PairsOf(p);
    nodes, bytes := 1 + |ids| + |pairs|, 0;
    if p.eval.Some? {
      nodes, bytes := nodes + 2, bytes + PairBytes(p.eval.value);
    }
    for i := 0 to |ids|
      invariant bytes == EvalSize(p.eval, Octets) + AllowedSize(ids, i, Octets)
    {
      bytes := bytes + |ids[i]|;
    }
    AllowedNodes(ids, |ids|);
    ghost var nodes0, bytes0 := nodes, bytes;
    var pending := pairs.Keys;
    while pending != {}
      invariant pending <= pairs.Keys
      invariant nodes + PairsSize(pairs, pending, Nodes) - |pending| == nodes0
                + PairsSize(pairs, pairs.Keys, Nodes) - |pairs|
      invariant bytes + PairsSize(pairs, pending, Octets) == bytes0 + PairsSize(pairs, pairs.Keys, Octets)
      decreases |pending|
    {
      var id :| id in pending;
      PairsSizeAnyOrder(pairs, pending, id, Nodes);
      PairsSizeAnyOrder(pairs, pending, id, Octets);
      nodes, bytes := nodes + 2, bytes + |id| + PairBytes(pairs[id]);
      pending := pending - {id};
    }
    NoPairs(pairs);
  }

  lemma NoPairs(pairs: map<string, PrfValues>)
    ensures PairsSize(pairs, {}, Nodes) == 0 && PairsSize(pairs, {}, Octets) == 0
  {}

  /** What one node costs apart from its list or map children. */
  method DirectCloneCost(v: Value) returns (nodes: nat, bytes: nat)
    ensures v.List? || v.Object? ==> nodes == 1 && bytes == 0
    ensures !v.List? && !v.Object? ==> nodes == TreeSize(v, Nodes) && bytes == TreeSize(v, Octets)
  {
    match v
    case Text(s) => nodes, bytes := 1, |s|;
    case Bytes(data) => nodes, bytes := 1, OptionLength(data);
    case PrfPair(p) => nodes, bytes := 3, OptionLength(p.first) + OptionLength(p.second);
    case Prf(p) => nodes, bytes := PrfDirectCost(p);
    case LargeBlob(l) => nodes, bytes := 3, OptionLength(l.write);
    case _ => nodes, bytes := 1, 0;
  }

  lemma CopyableChildren(v: Value, room: int)
    ensures v.List? ==>
              (Copyable(v, room) <==> room >= 0 && forall i :: 0 <= i < |v.items| ==> Copyable(v.items[i], room - 1))
    ensures v.Object? ==>
              (Copyable(v, room) <==> room >= 0 && forall k :: k in v.fields ==> Copyable(v.fields[k], room - 1))
    ensures !v.List? && !v.Object? ==> (Copyable(v, room) <==> room >= 0 && !v.Foreign?)
  {}

  method CloneValueAt(v: Value, depth: nat, budget: CloneBudget) returns (r: Result<Value, CloneError>)
    requires budget.Valid()
    modifies budget
    ensures budget.Valid()
    ensures r.Ok? <==> Copyable(v, budget.limits.maxDepth - depth)
                       && old(budget.nodes) + TreeSize(v, Nodes) <= budget.limits.maxNodes
                       && old(budget.bytes) + TreeSize(v, Octets) <= budget.limits.maxBytes
    ensures r.Ok? ==> r.value == v
                      && budget.nodes == old(budget.nodes) + TreeSize(v, Nodes)
                      && budget.bytes == old(budget.bytes) + TreeSize(v, Octets)
    decreases v, 2
  {
    hide TreeSize, FieldsSize, ItemsSize, Copyable;
    CopyableChildren(v, budget.limits.maxDepth - depth);
    if depth > budget.limits.maxDepth {
      return Err(InvalidRequest);
    }
    var nodes, bytes := DirectCloneCost(v);
    SizeByShape(v, Nodes);
    SizeByShape(v, Octets);
    var ok := budget.Consume(nodes, bytes);
    if !ok {
      return Err(InvalidRequest);
    }
    match v
    case List(_, _) => r := CloneSequence(v, depth, budget);
    case Object(_, _) => r := CloneMap(v, depth, budget);
    case Foreign => r := Err(InvalidRequest);
    case _ => r := Ok(v);
  }

  method CloneSequence(v: Value, depth: nat, budget: CloneBudget) returns (r: Result<Value, CloneError>)
    requires budget.Valid() && v.List? && depth <= budget.limits.maxDepth
    modifies budget
    ensures budget.Valid()
    ensures r.Ok? <==> Copyable(v, budget.limits.maxDepth - depth)
                       && old(budget.nodes) + ItemsSize(v, |v.items|, Nodes) <= budget.limits.maxNodes
                       && old(budget.bytes) + ItemsSize(v, |v.items|, Octets) <= budget.limits.maxBytes
    ensures r.Ok? ==> r.value == v
                      && budget.nodes == old(budget.nodes) + ItemsSize(v, |v.items|, Nodes)
                      && budget.bytes == old(budget.bytes) + ItemsSize(v, |v.items|, Octets)
    decreases v, 0
  {
    hide TreeSize, Copyable;
    ghost var room := budget.limits.maxDepth - depth;
    CopyableChildren(v, room);
    var out: seq<Value> := [];
    for i := 0 to |v.items|
      invariant budget.Valid() && out == v.items[..i]
      invariant budget.nodes == old(budget.nodes) + ItemsSize(v, i, Nodes)
      invariant budget.bytes == old(budget.bytes) + ItemsSize(v, i, Octets)
      invariant forall j :: 0 <= j < i ==> Copyable(v.items[j], room - 1)
    {
      ItemsSizePrefix(v, i + 1, Nodes);
      ItemsSizePrefix(v, i + 1, Octets);
      var item := CloneValueAt(v.items[i], depth + 1, budget);
      if item.Err? {
        return Err(InvalidRequest);
      }
      out := out + [item.value];
    }
    return Ok(List(v.listKind, out));
  }

  /** One turn of the map loop: charges the key, then copies the value. */
  method CloneEntry(v: Value, k: string, depth: nat, budget: CloneBudget) returns (r: Result<Value, CloneError>)
    requires budget.Valid() && v.Object? && k in v.fields
    modifies budget
    ensures budget.Valid()
    ensures r.Ok? <==> Copyable(v.fields[k], budget.limits.maxDepth - depth - 1)
                       && old(budget.nodes) + 1 + TreeSize(v.fields[k], Nodes) <= budget.limits.maxNodes
                       && old(budget.bytes) + |k| + TreeSize(v.fields[k], Octets) <= budget.limits.maxBytes
    ensures r.Ok? ==> r.value == v.fields[k]
                      && budget.nodes == old(budget.nodes) + 1 + TreeSize(v.fields[k], Nodes)
                      && budget.bytes == old(budget.bytes) + |k| + TreeSize(v.fields[k], Octets)
    decreases v, 0
  {
    hide TreeSize, Copyable;
    var ok := budget.Consume(1, |k|);
    if !ok {
      return Err(InvalidRequest);
    }
    r := CloneValueAt(v.fields[k], depth + 1, budget);
  }

  method CloneMap(v: Value, depth: nat, budget: CloneBudget) returns (r: Result<Value, CloneError>)
    requires budget.Valid() && v.Object? && depth <= budget.limits.maxDepth
    modifies budget
    ensures budget.Valid()
    ensures r.Ok? <==> Copyable(v, budget.limits.maxDepth - depth)
                       && old(budget.nodes) + FieldsSize(v, v.fields.Keys, Nodes) <= budget.limits.maxNodes
                       && old(budget.bytes) + FieldsSize(v, v.fields.Keys, Octets) <= budget.limits.maxBytes
    ensures r.Ok? ==> r.value == v
                      && budget.nodes == old(budget.nodes) + FieldsSize(v, v.fields.Keys, Nodes)
                      && budget.bytes == old(budget.bytes) + FieldsSize(v, v.fields.Keys, Octets)
    decreases v, 1
  {
    hide TreeSize, Copyable, FieldsSize;
    ghost var room := budget.limits.maxDepth - depth;
    CopyableChildren(v, room);
    var out: map<string, Value> := map[];
    var pending := v.fields.Keys;
    while pending != {}
      invariant budget.Valid() && pending <= v.fields.Keys
      invariant budget.nodes + FieldsSize(v, pending, Nodes) == old(budget.nodes) + FieldsSize(v, v.fields.Keys, Nodes)
      invariant budget.bytes + FieldsSize(v, pending, Octets) == old(budget.bytes)
                + FieldsSize(v, v.fields.Keys, Octets)
      invariant forall k :: k in v.fields ==> k in pending || k in out
      invariant forall k :: k in out ==>
                k in v.fields && k !in pending && out[k] == v.fields[k] && Copyable(out[k], room - 1)
      decreases |pending|
    {
      var k :| k in pending;
      FieldsSizeAnyOrder(v, pending, k, Nodes);
      FieldsSizeAnyOrder(v, pending, k, Octets);
      var item := CloneEntry(v, k, depth, budget);
      if item.Err? {
        return Err(InvalidRequest);
      }
      out := out[k := item.value];
      pending := pending - {k};
    }
    NoFields(v, Nodes);
    NoFields(v, Octets);
    assert out == v.fields;
    return Ok(Object(v.mapKind, out));
  }

  /** Copies a value under limits; a zero limit stands for the default and a negative one is refused. */
  method CloneValueWithLimits(v: Value, limits: Limits) returns (r: Result<Value, CloneError>)
    ensures r.Ok? <==> limits.maxDepth >= 0 && limits.maxNodes >= 0 && limits.maxBytes >= 0
                       && Copyable(v, if limits.maxDepth == 0 then 32 else limits.maxDepth)
                       && TreeSize(v, Nodes) <= (if limits.maxNodes == 0 then 4096 else limits.maxNodes)
                       && TreeSize(v, Octets) <= (if limits.maxBytes == 0 then 1_048_576 else limits.maxBytes)
    ensures r.Ok? ==> r.value == v
  {
    if limits.maxDepth < 0 || limits.maxNodes < 0 || limits.maxBytes < 0 {
      return Err(InvalidRequest);
    }
    var budget := new CloneBudget(OrDefault(limits));
    r := CloneValueAt(v, 0, budget);
  }

  /** Copies a value under the package defaults. */
  method CloneValue(v: Value) returns (r: Result<Value, CloneError>)
    ensures r.Ok? <==> CloneAccepts(v)
    ensures r.Ok? ==> r.value == v
  {
    r := CloneValueWithLimits(v, Limits(0, 0, 0));
  }
}
