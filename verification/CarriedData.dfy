// What a value carries, read off its constructors: its parts with their texts and data, and its nodes by path.
// The charges and depth rules of the walks are stated in these terms.
module CarriedData {
  import opened Base
  import opened Values
  import opened EncodedValues
  import opened ValueCodec
  import opened StoredInputs
  import CloneWalk
  import Base64

  // ----- Parts -----

  /** One part of a value: a text, some data, or nothing that takes room. */
  datatype Part = Mark | TextPart(text: string) | DataPart(data: seq<byte>)

  function Room(part: Part): nat {
    match part
    case Mark => 0
    case TextPart(text) => |text|
    case DataPart(data) => |data|
  }

  /** The length of all texts and data together. */
  function Total(parts: seq<Part>): nat {
    if parts == [] then 0 else Total(parts[..|parts| - 1]) + Room(parts[|parts| - 1])
  }

  function DataOf(data: Option<seq<byte>>): Part { if data.Some? then DataPart(data.value) else Mark }

  function PrfParts(p: PrfValues): seq<Part> { [DataOf(p.first), DataOf(p.second)] }

  function IdParts(ids: seq<string>): seq<Part> { seq(|ids|, i requires 0 <= i < |ids| => TextPart(ids[i])) }

  ghost function PairParts(pairs: map<string, PrfValues>, keys: set<string>): seq<Part>
    requires keys <= pairs.Keys
  {
    if keys == {} then []
    else
      var k :| k in keys;
      PairParts(pairs, keys - {k}) + [TextPart(k)] + PrfParts(pairs[k])
  }

  /** A value, its keys, its items and the contents of its typed inputs, in some order. */
  ghost function Parts(v: Value): seq<Part>
    decreases v, 1
  {
    match v
    case Text(s) => [TextPart(s)]
    case Bytes(data) => [DataOf(data)]
    case List(_, items) => [Mark] + ItemParts(v, |items|)
    case Object(_, fields) => [Mark] + FieldParts(v, fields.Keys)
    case PrfPair(p) => [Mark] + PrfParts(p)
    case LargeBlob(l) => [Mark, Mark, DataOf(l.write)]
    case Prf(PrfInput(eval, pairs, ids)) =>
      [Mark] + (if eval.Some? then PrfParts(eval.value) else []) + (if ids.Some? then IdParts(ids.value) else [])
      + (if pairs.Some? then PairParts(pairs.value, pairs.value.Keys) else [])
    case _ => [Mark]
  }

  ghost function ItemParts(v: Value, n: nat): seq<Part>
    requires v.List? && n <= |v.items|
    decreases v, 0, n
  {
    if n == 0 then [] else ItemParts(v, n - 1) + Parts(v.items[n - 1])
  }

  ghost function FieldParts(v: Value, keys: set<string>): seq<Part>
    requires v.Object? && keys <= v.fields.Keys
    decreases v, 0, |keys|
  {
    if keys == {} then []
    else
      var k :| k in keys;
      FieldParts(v, keys - {k}) + [TextPart(k)] + Parts(v.fields[k])
  }

  lemma {:induction false} TotalConcat(a: seq<Part>, b: seq<Part>)
    ensures Total(a + b) == Total(a) + Total(b)
  {
    if b == [] {
      assert a + b == a;
    } else {
      TotalConcat(a, b[..|b| - 1]);
      assert (a + b)[..|a + b| - 1] == a + b[..|b| - 1];
    }
  }

  lemma TotalOne(part: Part)
    ensures Total([part]) == Room(part)
  {
    assert [part][..0] == [];
  }

  lemma TotalTwo(a: Part, b: Part)
    ensures Total([a, b]) == Room(a) + Room(b)
  {
    TotalOne(a);
    assert [a, b][..1] == [a];
  }

  /** What a size says about parts. */
  ghost predicate Sized(parts: seq<Part>, nodes: nat, octets: nat) { |parts| == nodes && Total(parts) == octets }

  lemma SizedConcat(a: seq<Part>, b: seq<Part>, nodes: nat, octets: nat, moreNodes: nat, moreOctets: nat)
    requires Sized(a, nodes, octets) && Sized(b, moreNodes, moreOctets)
    ensures Sized(a + b, nodes + moreNodes, octets + moreOctets)
  {
    TotalConcat(a, b);
  }

  lemma PrfPartsSized(p: PrfValues)
    ensures Sized(PrfParts(p), 2, PairBytes(p))
  {
    TotalTwo(DataOf(p.first), DataOf(p.second));
  }

  lemma {:induction false} IdPartsSized(ids: seq<string>)
    ensures Sized(IdParts(ids), AllowedSize(ids, |ids|, Nodes), AllowedSize(ids, |ids|, Octets))
  {
    IdPrefixSized(ids, |ids|);
    assert ids[..|ids|] == ids;
  }

  lemma {:induction false} IdPrefixSized(ids: seq<string>, n: nat)
    requires n <= |ids|
    ensures Sized(IdParts(ids[..n]), AllowedSize(ids, n, Nodes), AllowedSize(ids, n, Octets))
  {
    if n > 0 {
      IdPrefixSized(ids, n - 1);
      assert IdParts(ids[..n]) == IdParts(ids[..n - 1]) + [TextPart(ids[n - 1])];
      TotalOne(TextPart(ids[n - 1]));
      SizedConcat(IdParts(ids[..n - 1]), [TextPart(ids[n - 1])], AllowedSize(ids, n - 1, Nodes),
                  AllowedSize(ids, n - 1, Octets), 1, |ids[n - 1]|);
    }
  }

  lemma {:induction false} PairPartsSized(pairs: map<string, PrfValues>, keys: set<string>)
    requires keys <= pairs.Keys
    ensures Sized(PairParts(pairs, keys), PairsSize(pairs, keys, Nodes), PairsSize(pairs, keys, Octets))
  {
    hide PairsSize, PrfParts, PairBytes, Sized;
    if keys == {} {
      NoPairParts(pairs);
    } else {
      var k :| k in keys && PairParts(pairs, keys) == PairParts(pairs, keys - {k}) + [TextPart(k)] + PrfParts(pairs[k]);
      PairPartsSized(pairs, keys - {k});
      PairsSizeAnyOrder(pairs, keys, k, Nodes);
      PairsSizeAnyOrder(pairs, keys, k, Octets);
      TextPartSized(k);
      PrfPartsSized(pairs[k]);
      SizedConcat(PairParts(pairs, keys - {k}), [TextPart(k)], PairsSize(pairs, keys - {k}, Nodes),
                  PairsSize(pairs, keys - {k}, Octets), 1, |k|);
      SizedConcat(PairParts(pairs, keys - {k}) + [TextPart(k)], PrfParts(pairs[k]),
                  PairsSize(pairs, keys - {k}, Nodes) + 1, PairsSize(pairs, keys - {k}, Octets) + |k|,
                  2, PairBytes(pairs[k]));
    }
  }

  lemma NoPairParts(pairs: map<string, PrfValues>)
    ensures Sized(PairParts(pairs, {}), PairsSize(pairs, {}, Nodes), PairsSize(pairs, {}, Octets))
  {}

  lemma TextPartSized(text: string)
    ensures Sized([TextPart(text)], 1, |text|)
  {
    TotalOne(TextPart(text));
  }

  lemma PrfInputSized(p: PrfInput)
    ensures Sized(Parts(Prf(p)), PrfSize(p, Nodes), PrfSize(p, Octets))
  {
    hide PairsSize, PairParts, AllowedSize, IdParts, PrfParts, PairBytes, Total;
    TotalOne(Mark);
    var eval := if p.eval.Some? then PrfParts(p.eval.value) else [];
    var ids := if p.allowCredentials.Some? then IdParts(p.allowCredentials.value) else [];
    var pairs := if p.evalByCredential.Some?
      then PairParts(p.evalByCredential.value, p.evalByCredential.value.Keys) else [];
    NothingSized();
    if p.eval.Some? { PrfPartsSized(p.eval.value); }
    if p.allowCredentials.Some? { IdPartsSized(p.allowCredentials.value); }
    if p.evalByCredential.Some? { PairPartsSized(p.evalByCredential.value, p.evalByCredential.value.Keys); }
    assert p.evalByCredential.None? ==> PairsOf(p).Keys == {};
    assert Parts(Prf(p)) == [Mark] + eval + ids + pairs;
    TotalConcat([Mark], eval);
    TotalConcat([Mark] + eval, ids);
    TotalConcat([Mark] + eval + ids, pairs);
  }

  lemma NothingSized()
    ensures Total([]) == 0 && AllowedSize([], 0, Nodes) == 0 && AllowedSize([], 0, Octets) == 0
    ensures PairsSize(map[], {}, Nodes) == 0 && PairsSize(map[], {}, Octets) == 0
  {}

  lemma LeafSized(v: Value)
    requires !v.List? && !v.Object?
    ensures Sized(Parts(v), TreeSize(v, Nodes), TreeSize(v, Octets))
  {
    match v
    case Prf(p) => PrfInputSized(p);
    case PrfPair(p) => TotalOne(Mark); PrfPartsSized(p); TotalConcat([Mark], PrfParts(p));
    case LargeBlob(l) =>
      TotalTwo(Mark, Mark);
      assert [Mark, Mark, DataOf(l.write)][..2] == [Mark, Mark];
    case Text(s) => TotalOne(TextPart(s));
    case Bytes(data) => TotalOne(DataOf(data));
    case _ => TotalOne(Mark);
  }

  lemma {:induction false} ItemsSized(v: Value, n: nat)
    requires v.List? && n <= |v.items|
    ensures Sized(ItemParts(v, n), ItemsSize(v, n, Nodes), ItemsSize(v, n, Octets))
    decreases v, 0, n
  {
    hide TreeSize, Parts;
    if n > 0 {
      ItemsSized(v, n - 1);
      SizesAreParts(v.items[n - 1]);
      TotalConcat(ItemParts(v, n - 1), Parts(v.items[n - 1]));
    }
  }

  lemma {:induction false} FieldsSized(v: Value, keys: set<string>)
    requires v.Object? && keys <= v.fields.Keys
    ensures Sized(FieldParts(v, keys), FieldsSize(v, keys, Nodes), FieldsSize(v, keys, Octets))
    decreases v, 0, |keys|
  {
    hide TreeSize, Parts, FieldsSize, Total;
    if keys == {} {
      NoFields(v, Nodes);
      NoFields(v, Octets);
      NothingSized();
    } else {
      var k :| k in keys && FieldParts(v, keys) == FieldParts(v, keys - {k}) + [TextPart(k)] + Parts(v.fields[k]);
      FieldsSized(v, keys - {k});
      SizesAreParts(v.fields[k]);
      FieldsSizeAnyOrder(v, keys, k, Nodes);
      FieldsSizeAnyOrder(v, keys, k, Octets);
      TotalOne(TextPart(k));
      TotalConcat(FieldParts(v, keys - {k}), [TextPart(k)]);
      TotalConcat(FieldParts(v, keys - {k}) + [TextPart(k)], Parts(v.fields[k]));
    }
  }

  /** A copy is charged one node for each part of the value and the octets of all its texts and data: keys, prf
      values and credential ids, and the data to be written included. */
  lemma {:induction false} SizesAreParts(v: Value)
    ensures TreeSize(v, Nodes) == |Parts(v)| && TreeSize(v, Octets) == Total(Parts(v))
    decreases v, 1
  {
    hide LeafSize, Total, FieldsSize, ItemsSize, FieldParts, ItemParts;
    TotalOne(Mark);
    match v
    case List(_, items) => ItemsSized(v, |items|); TotalConcat([Mark], ItemParts(v, |items|));
    case Object(_, fields) => FieldsSized(v, fields.Keys); TotalConcat([Mark], FieldParts(v, fields.Keys));
    case _ => LeafSized(v);
  }

  // ----- Nodes by path -----

  datatype Access = Item(index: nat) | Field(key: string)

  /** The node that a path of list positions and map keys leads to. */
  function At(v: Value, path: seq<Access>): Option<Value> {
    if path == [] then Some(v)
    else
      match (v, path[0])
      case (List(_, items), Item(i)) => if i < |items| then At(items[i], path[1..]) else None
      case (Object(_, fields), Field(k)) => if k in fields then At(fields[k], path[1..]) else None
      case _ => None
  }

  /** Every node of the tree is at most `room` levels below the root and as demanded. */
  ghost predicate Everywhere(v: Value, room: int, ok: Value -> bool) {
    forall path :: At(v, path).Some? ==> |path| <= room && ok(At(v, path).value)
  }

  lemma AtItem(v: Value, i: nat, path: seq<Access>)
    requires v.List? && i < |v.items|
    ensures At(v, [Item(i)] + path) == At(v.items[i], path)
  {
    assert ([Item(i)] + path)[1..] == path;
  }

  lemma AtField(v: Value, k: string, path: seq<Access>)
    requires v.Object? && k in v.fields
    ensures At(v, [Field(k)] + path) == At(v.fields[k], path)
  {
    assert ([Field(k)] + path)[1..] == path;
  }

  /** The root is as demanded, and so is each child with one level less. */
  ghost predicate RootAndChildren(v: Value, room: int, ok: Value -> bool) {
    && room >= 0 && ok(v)
    && (v.List? ==> forall i :: 0 <= i < |v.items| ==> Everywhere(v.items[i], room - 1, ok))
    && (v.Object? ==> forall k :: k in v.fields ==> Everywhere(v.fields[k], room - 1, ok))
  }

  lemma EverywhereByChildren(v: Value, room: int, ok: Value -> bool)
    ensures Everywhere(v, room, ok) <==> RootAndChildren(v, room, ok)
  {
    hide Everywhere, RootAndChildren, At;
    if Everywhere(v, room, ok) { ChildrenFollow(v, room, ok); }
    if RootAndChildren(v, room, ok) { ChildrenSuffice(v, room, ok); }
  }

  lemma ChildrenSuffice(v: Value, room: int, ok: Value -> bool)
    requires RootAndChildren(v, room, ok)
    ensures Everywhere(v, room, ok)
  {
    forall path: seq<Access> | At(v, path).Some? ensures |path| <= room && ok(At(v, path).value) {
      if path != [] { StepInto(v, room, ok, path); }
    }
  }

  lemma StepInto(v: Value, room: int, ok: Value -> bool, path: seq<Access>)
    requires RootAndChildren(v, room, ok) && path != [] && At(v, path).Some?
    ensures |path| <= room && ok(At(v, path).value)
  {
    match (v, path[0])
    case (List(_, items), Item(i)) => assert Everywhere(items[i], room - 1, ok);
    case (Object(_, fields), Field(k)) => assert Everywhere(fields[k], room - 1, ok);
  }

  lemma ChildrenFollow(v: Value, room: int, ok: Value -> bool)
    requires Everywhere(v, room, ok)
    ensures RootAndChildren(v, room, ok)
  {
    assert At(v, []) == Some(v);
    if v.List? {
      forall i, path | 0 <= i < |v.items| && At(v.items[i], path).Some?
        ensures |path| <= room - 1 && ok(At(v.items[i], path).value)
      {
        AtItem(v, i, path);
      }
    }
    if v.Object? {
      forall k, path | k in v.fields && At(v.fields[k], path).Some?
        ensures |path| <= room - 1 && ok(At(v.fields[k], path).value)
      {
        AtField(v, k, path);
      }
    }
  }

  function NotForeign(): Value -> bool { (v: Value) => v != Foreign }

  lemma {:induction false} CopyableEverywhere(v: Value, room: int)
    ensures CloneWalk.Copyable(v, room) <==> Everywhere(v, room, NotForeign())
  {
    hide Everywhere;
    EverywhereByChildren(v, room, NotForeign());
    match v
    case List(_, items) =>
      forall i | 0 <= i < |items|
        ensures CloneWalk.Copyable(items[i], room - 1) <==> Everywhere(items[i], room - 1, NotForeign())
      {
        CopyableEverywhere(items[i], room - 1);
      }
    case Object(_, fields) =>
      forall k | k in fields
        ensures CloneWalk.Copyable(fields[k], room - 1) <==> Everywhere(fields[k], room - 1, NotForeign())
      {
        CopyableEverywhere(fields[k], room - 1);
      }
    case _ =>
  }

  /** The package-default copy accepts exactly the values with no node of unknown type or deeper than 32 levels, with
      at most 4096 parts, and with at most 2^20 octets of text and data. */
  lemma CopyAcceptsExactly(v: Value)
    ensures CloneWalk.CloneAccepts(v) <==>
              && (forall path :: At(v, path).Some? ==> |path| <= 32 && At(v, path) != Some(Foreign))
              && |Parts(v)| <= 4096 && Total(Parts(v)) <= 1_048_576
  {
    hide CloneWalk.Copyable, TreeSize, Parts, At;
    CopyableEverywhere(v, 32);
    SizesAreParts(v);
  }

  /** What the encoder supports: no typed input, no unknown type, no number that is not finite. */
  function Supported(): Value -> bool {
    (v: Value) =>
      match v
      case Prf(_) => false
      case PrfPair(_) => false
      case LargeBlob(_) => false
      case Foreign => false
      case Float(_, NaN) => false
      case Float(_, Infinite(_)) => false
      case _ => true
  }

  lemma {:induction false} StorableEverywhere(v: Value, room: int)
    ensures Storable(v, room) <==> Everywhere(v, room, Supported())
  {
    hide Everywhere;
    EverywhereByChildren(v, room, Supported());
    match v
    case List(_, items) =>
      forall i | 0 <= i < |items|
        ensures Storable(items[i], room - 1) <==> Everywhere(items[i], room - 1, Supported())
      {
        StorableEverywhere(items[i], room - 1);
      }
    case Object(_, fields) =>
      forall k | k in fields
        ensures Storable(fields[k], room - 1) <==> Everywhere(fields[k], room - 1, Supported())
      {
        StorableEverywhere(fields[k], room - 1);
      }
    case _ =>
  }

  /** Extension inputs can be written exactly when there are at most 64 under well-formed identifiers, each can be
      copied and its plain form is supported to 32 levels, and all plain forms together have at most 4096 parts and
      2^20 octets, identifiers included. */
  lemma WritableExactly(inputs: map<string, Input>)
    ensures Writable(inputs) <==>
              && |inputs| <= 64
              && (forall id :: id in inputs ==>
                    && ValidIdentifier(id)
                    && CloneWalk.CloneAccepts(InputValue(inputs[id]))
                    && Everywhere(Plain(InputValue(inputs[id])), 32, Supported()))
              && |FieldParts(Bundle(inputs), Bundle(inputs).fields.Keys)| <= 4096
              && Total(FieldParts(Bundle(inputs), Bundle(inputs).fields.Keys)) <= 1_048_576
  {
    hide ValidIdentifier, CloneWalk.CloneAccepts, Storable, Everywhere, FieldParts, FieldsSize, Plain, Total, Bundle;
    FieldsSized(Bundle(inputs), Bundle(inputs).fields.Keys);
    forall id | id in inputs
      ensures Storable(Plain(InputValue(inputs[id])), 32)
          <==> Everywhere(Plain(InputValue(inputs[id])), 32, Supported())
    {
      StorableEverywhere(Plain(InputValue(inputs[id])), 32);
    }
  }

  // ----- Canonical forms by path -----

  /** The node of a value and the node that storage gives back for it. */
  predicate SameContent(v: Value, stored: Value) {
    match v
    case Bytes(None) => stored == Bytes(Some([]))
    case Int(_, n) => stored == Int(W64, n)
    case Uint(_, n) => stored == Uint(W64, n)
    case Float(_, x) => stored == Float(true, x)
    case List(_, items) => stored.List? && stored.listKind == AnyList && |stored.items| == |items|
    case Object(_, fields) => stored.Object? && stored.mapKind == AnyMap && stored.fields.Keys == fields.Keys
    case _ => stored == v
  }

  /** Storage keeps every node in its place with its content: only number widths, element types and the difference
      between nil and empty data are lost. */
  lemma {:induction false} CanonByPath(v: Value, path: seq<Access>)
    ensures At(Canon(v), path).Some? <==> At(v, path).Some?
    ensures At(v, path).Some? ==> SameContent(At(v, path).value, At(Canon(v), path).value)
    decreases |path|
  {
    if path == [] {
      if v.Object? { assert Canon(v).fields.Keys == v.fields.Keys; }
    } else {
      match (v, path[0])
      case (List(_, items), Item(i)) => if i < |items| { CanonByPath(items[i], path[1..]); }
      case (Object(_, fields), Field(k)) => if k in fields { CanonByPath(fields[k], path[1..]); }
      case _ =>
    }
  }

  // ----- Stored trees -----

  /** The stored node of a leaf, field by field. */
  lemma LeafLayout(v: Value)
    ensures v == Null ==> Encoded(v) == EncodedValue(NullTag, None, None, None, None, None, None, NoList, NoMap)
    ensures v.Bool? ==>
              Encoded(v) == EncodedValue(BoolTag, Some(v.flag), None, None, None, None, None, NoList, NoMap)
    ensures v.Text? ==>
              Encoded(v) == EncodedValue(TextTag, None, Some(v.text), None, None, None, None, NoList, NoMap)
    ensures v.Bytes? && v.data.Some? ==>
              exists text :: Base64.Accept(text) == v.data &&
                Encoded(v) == EncodedValue(BytesTag, None, None, Some(text), None, None, None, NoList, NoMap)
    ensures v.Int? ==>
              Encoded(v) == EncodedValue(IntTag, None, None, None, Some(v.integer), None, None, NoList, NoMap)
    ensures v.Uint? ==>
              Encoded(v) == EncodedValue(UintTag, None, None, None, None, Some(v.natural), None, NoList, NoMap)
    ensures v.Float? ==>
              Encoded(v) == EncodedValue(FloatTag, None, None, None, None, None, Some(v.number), NoList, NoMap)
  {
    hide Base64.Accept, Base64.Encode;
    if v.Bytes? && v.data.Some? {
      Base64.AcceptExactlyEncodings(Base64.Encode(v.data.value), v.data.value);
      assert Base64.Accept(Base64.Encode(v.data.value)) == v.data;
    }
  }

  /** The decoder reads exactly the trees that some supported value in canonical form is stored as. */
  lemma ReadableExactly(e: EncodedValue)
    ensures Readable(e, 32) <==> exists v :: Everywhere(v, 32, Supported()) && Canon(v) == v && Encoded(v) == e
  {
    hide Everywhere, Canon, Encoded, Readable;
    if Readable(e, 32) {
      EncodedOfDecoded(e, 32);
      StorableEverywhere(Decoded(e), 32);
    }
    if v :| Everywhere(v, 32, Supported()) && Canon(v) == v && Encoded(v) == e {
      StorableEverywhere(v, 32);
      DecodedOfEncoded(v, 32);
    }
  }

  /** A stored tree as parts: one for each node with its text or base64 text, and one for each key. */
  ghost function StoredParts(e: EncodedValue): seq<Part>
    decreases e, 1
  {
    [match (e.text, e.bytes)
     case (Some(text), _) => TextPart(text)
     case (None, Some(encoded)) => TextPart(encoded)
     case (None, None) => Mark]
    + (match e.list case Elements(elements) => ElementParts(e, |elements|) case NoList => [])
    + (match e.dict case Members(members) => MemberParts(e, members.Keys) case NoMap => [])
  }

  ghost function ElementParts(e: EncodedValue, n: nat): seq<Part>
    requires e.list.Elements? && n <= |e.list.elements|
    decreases e, 0, n
  {
    if n == 0 then [] else ElementParts(e, n - 1) + StoredParts(e.list.elements[n - 1])
  }

  ghost function MemberParts(e: EncodedValue, keys: set<string>): seq<Part>
    requires e.dict.Members? && keys <= e.dict.members.Keys
    decreases e, 0, |keys|
  {
    if keys == {} then []
    else
      var k :| k in keys;
      MemberParts(e, keys - {k}) + [TextPart(k)] + StoredParts(e.dict.members[k])
  }

  lemma {:induction false} ElementsSized(e: EncodedValue, n: nat)
    requires e.list.Elements? && n <= |e.list.elements|
    ensures Sized(ElementParts(e, n), ElementsSize(e, n, Nodes), ElementsSize(e, n, Octets))
    decreases e, 0, n
  {
    hide StoredSize, StoredParts;
    if n > 0 {
      ElementsSized(e, n - 1);
      StoredSizesAreParts(e.list.elements[n - 1]);
      TotalConcat(ElementParts(e, n - 1), StoredParts(e.list.elements[n - 1]));
    }
  }

  lemma {:induction false} MembersSized(e: EncodedValue, keys: set<string>)
    requires e.dict.Members? && keys <= e.dict.members.Keys
    ensures Sized(MemberParts(e, keys), MembersSize(e, keys, Nodes), MembersSize(e, keys, Octets))
    decreases e, 0, |keys|
  {
    hide StoredSize, StoredParts, MembersSize, Total;
    if keys == {} {
      NoMembers(e, Nodes);
      NoMembers(e, Octets);
      NothingSized();
    } else {
      var k :| k in keys
        && MemberParts(e, keys) == MemberParts(e, keys - {k}) + [TextPart(k)] + StoredParts(e.dict.members[k]);
      MembersSized(e, keys - {k});
      StoredSizesAreParts(e.dict.members[k]);
      MembersSizeAnyOrder(e, keys, k, Nodes);
      MembersSizeAnyOrder(e, keys, k, Octets);
      TotalOne(TextPart(k));
      TotalConcat(MemberParts(e, keys - {k}), [TextPart(k)]);
      TotalConcat(MemberParts(e, keys - {k}) + [TextPart(k)], StoredParts(e.dict.members[k]));
    }
  }

  /** The decoder charges one node for each part, and data at the length of its base64 text. */
  lemma {:induction false} StoredSizesAreParts(e: EncodedValue)
    ensures StoredSize(e, Nodes) == |StoredParts(e)| && StoredSize(e, Octets) == Total(StoredParts(e))
    decreases e, 1
  {
    hide Total, ElementsSize, MembersSize, ElementParts, MemberParts;
    NothingSized();
    var node := if e.text.Some? then TextPart(e.text.value)
        else if e.bytes.Some? then TextPart(e.bytes.value) else Mark;
    var elements := if e.list.Elements? then ElementParts(e, |e.list.elements|) else [];
    var members := if e.dict.Members? then MemberParts(e, e.dict.members.Keys) else [];
    if e.list.Elements? { ElementsSized(e, |e.list.elements|); }
    if e.dict.Members? { MembersSized(e, e.dict.members.Keys); }
    TotalOne(node);
    TotalConcat([node], elements);
    TotalConcat([node] + elements, members);
  }

  /** Stored inputs can be read exactly when there are at most 64 under well-formed identifiers, each is readable to
      32 levels, and all together have at most 4096 parts and 2^20 octets, identifiers included. */
  lemma ReadableInputsExactly(stored: map<string, EncodedValue>)
    ensures ReadableInputs(stored) <==>
              && |stored| <= 64
              && (forall id :: id in stored ==> ValidIdentifier(id) && Readable(stored[id], 32))
              && |MemberParts(StoredBundle(stored), stored.Keys)| <= 4096
              && Total(MemberParts(StoredBundle(stored), stored.Keys)) <= 1_048_576
  {
    hide ValidIdentifier, Readable, MemberParts, MembersSize, Total;
    MembersSized(StoredBundle(stored), stored.Keys);
  }
}
