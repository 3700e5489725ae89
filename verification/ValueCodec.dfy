// The storage encoder and decoder: recursive walks that share a budget of nodes and
// octets, stop at a depth limit, and visit map entries in an arbitrary order.
module ValueCodec {
  import opened Base
  import opened Values
  import opened EncodedValues
  import Base64

  const MAX_DEPTH := 32
  const MAX_NODES := 4096
  const MAX_ENVELOPE_BYTES := 0x10_0000

  datatype CodecError = UnsupportedValue | InvalidEnvelope

  class ValueBudget {
    var nodes: int
    var bytes: int

    ghost predicate Valid()
      reads this
    {
      0 <= nodes <= MAX_NODES && 0 <= bytes <= MAX_ENVELOPE_BYTES
    }

    constructor ()
      ensures Valid() && nodes == 0 && bytes == 0
    {
      nodes, bytes := 0, 0;
    }

    /** Charges the budget, or leaves it unchanged when the charge does not fit. */
    method Consume(moreNodes: int, moreBytes: int) returns (ok: bool)
      requires Valid()
      modifies this
      ensures Valid()
      ensures ok <==> moreNodes >= 0 && moreBytes >= 0
                      && old(nodes) + moreNodes <= MAX_NODES && old(bytes) + moreBytes <= MAX_ENVELOPE_BYTES
      ensures nodes == old(nodes) + (if ok then moreNodes else 0)
      ensures bytes == old(bytes) + (if ok then moreBytes else 0)
    {
      if moreNodes < 0 || moreBytes < 0 || nodes > MAX_NODES - moreNodes || bytes > MAX_ENVELOPE_BYTES - moreBytes {
        return false;
      }
      nodes, bytes := nodes + moreNodes, bytes + moreBytes;
      return true;
    }
  }

  function Levels(depth: nat): nat { if depth <= MAX_DEPTH then MAX_DEPTH + 1 - depth else 0 }

  function DirectBytes(v: Value): nat {
    match v
    case Text(s) => |s|
    case Bytes(data) => OptionLength(data)
    case _ => 0
  }

  // ----- Encoder -----

  lemma StorableChildren(v: Value, room: int)
    ensures v.List? ==>
              (Storable(v, room) <==> room >= 0 && forall i :: 0 <= i < |v.items| ==> Storable(v.items[i], room - 1))
    ensures v.Object? ==>
              (Storable(v, room) <==> room >= 0 && forall k :: k in v.fields ==> Storable(v.fields[k], room - 1))
    ensures !v.List? && !v.Object? ==>
              (Storable(v, room) <==> room >= 0 && !BuiltIn(v) && !v.Foreign? && (v.Float? ==> v.number.Finite?))
  {}

  /** The direct charge and the children's charges make up the size of the plain tree. */
  lemma PlainSizes(v: Value, unit: Unit)
    requires !BuiltIn(v)
    ensures v.List? ==> TreeSize(Plain(v), unit) == Charge(unit, 1, 0) + ItemsSize(Plain(v), |v.items|, unit)
    ensures v.Object? ==> Plain(v).Object? && Plain(v).fields.Keys == v.fields.Keys
    ensures v.Object? ==> TreeSize(Plain(v), unit) == Charge(unit, 1, 0) + FieldsSize(Plain(v), v.fields.Keys, unit)
    ensures !v.List? && !v.Object? ==> Plain(v) == v && TreeSize(v, unit) == Charge(unit, 1, DirectBytes(v))
  {
    hide TreeSize, ItemsSize, FieldsSize, PrfSize;
    SizeByShape(Plain(v), unit);
    if v.Object? { assert Plain(v).fields.Keys == v.fields.Keys; }
  }

  /** Encodes a value that the caller has normalized; a typed built-in input is unsupported here. */
  method EncodeValueAt(v: Value, depth: nat, budget: ValueBudget) returns (r: Result<EncodedValue, CodecError>)
    requires budget.Valid()
    modifies budget
    ensures budget.Valid()
    ensures r.Ok? <==> !BuiltIn(v) && Storable(Plain(v), MAX_DEPTH - depth)
                       && old(budget.nodes) + TreeSize(Plain(v), Nodes) <= MAX_NODES
                       && old(budget.bytes) + TreeSize(Plain(v), Octets) <= MAX_ENVELOPE_BYTES
    ensures r.Ok? ==> r.value == Encoded(Plain(v))
                      && budget.nodes == old(budget.nodes) + TreeSize(Plain(v), Nodes)
                      && budget.bytes == old(budget.bytes) + TreeSize(Plain(v), Octets)
    ensures r.Err? ==> r.error == UnsupportedValue
    decreases Levels(depth), 2
  {
    hide TreeSize, ItemsSize, FieldsSize, Storable, Encoded;
    if depth > MAX_DEPTH {
      StorableChildren(Plain(v), MAX_DEPTH - depth);
      return Err(UnsupportedValue);
    }
    var ok := budget.Consume(1, DirectBytes(v));
    if BuiltIn(v) {
      return Err(UnsupportedValue);
    }
    StorableChildren(Plain(v), MAX_DEPTH - depth);
    PlainSizes(v, Nodes);
    PlainSizes(v, Octets);
    if !ok {
      return Err(UnsupportedValue);
    }
    if v.List? {
      r := EncodeSequence(v, depth, budget);
    } else if v.Object? {
      r := EncodeMap(v, depth, budget);
    } else {
      r := EncodeScalar(v);
    }
  }

  method EncodeScalar(v: Value) returns (r: Result<EncodedValue, CodecError>)
    requires !v.List? && !v.Object? && !BuiltIn(v)
    ensures r.Ok? <==> !v.Foreign? && (v.Float? ==> v.number.Finite?)
    ensures r.Ok? ==> r.value == Encoded(v)
    ensures r.Err? ==> r.error == UnsupportedValue
  {
    match v
    case Null => r := Ok(Node(NullTag));
    case Bool(b) => r := Ok(Node(BoolTag).(flag := Some(b)));
    case Text(s) => r := Ok(Node(TextTag).(text := Some(s)));
    case Bytes(data) =>
      var encoded := Base64.Encode(if data.Some? then data.value else []);
      r := Ok(Node(BytesTag).(bytes := Some(encoded)));
    case Float(_, x) => r := if x.Finite? then Ok(Node(FloatTag).(float := Some(x))) else Err(UnsupportedValue);
    case Int(_, n) => r := Ok(Node(IntTag).(integer := Some(n)));
    case Uint(_, n) => r := Ok(Node(UintTag).(natural := Some(n)));
    case _ => r := Err(UnsupportedValue);
  }

  lemma EncodedList(v: Value, elements: seq<EncodedValue>)
    requires v.List? && |elements| == |v.items|
    requires forall i :: 0 <= i < |elements| ==> elements[i] == Encoded(v.items[i])
    ensures Encoded(v) == Node(ListTag).(list := Elements(elements))
  {
    assert Encoded(v).list.elements == elements;
  }

  lemma EncodedMap(v: Value, members: map<string, EncodedValue>)
    requires v.Object? && (forall k :: k in v.fields ==> k in members)
    requires forall k :: k in members ==> k in v.fields && members[k] == Encoded(v.fields[k])
    ensures Encoded(v) == Node(MapTag).(dict := Members(members))
  {
    assert Encoded(v).dict.members == members;
  }

  method EncodeSequence(v: Value, depth: nat, budget: ValueBudget) returns (r: Result<EncodedValue, CodecError>)
    requires budget.Valid() && v.List? && depth <= MAX_DEPTH
    modifies budget
    ensures budget.Valid()
    ensures r.Ok? <==> Storable(Plain(v), MAX_DEPTH - depth)
                       && old(budget.nodes) + ItemsSize(Plain(v), |v.items|, Nodes) <= MAX_NODES
                       && old(budget.bytes) + ItemsSize(Plain(v), |v.items|, Octets) <= MAX_ENVELOPE_BYTES
    ensures r.Ok? ==> r.value == Encoded(Plain(v))
                      && budget.nodes == old(budget.nodes) + ItemsSize(Plain(v), |v.items|, Nodes)
                      && budget.bytes == old(budget.bytes) + ItemsSize(Plain(v), |v.items|, Octets)
    ensures r.Err? ==> r.error == UnsupportedValue
    decreases Levels(depth), 1
  {
    hide TreeSize, Storable, Encoded;
    ghost var p := Plain(v);
    ghost var room := MAX_DEPTH - depth;
    StorableChildren(p, room);
    var elements: seq<EncodedValue> := [];
    for i := 0 to |v.items|
      invariant budget.Valid() && |elements| == i
      invariant budget.nodes == old(budget.nodes) + ItemsSize(p, i, Nodes)
      invariant budget.bytes == old(budget.bytes) + ItemsSize(p, i, Octets)
      invariant forall j :: 0 <= j < i ==> elements[j] == Encoded(p.items[j]) && Storable(p.items[j], room - 1)
    {
      ItemsSizePrefix(p, i + 1, Nodes);
      ItemsSizePrefix(p, i + 1, Octets);
      PlainOfNormalize(v.items[i]);
      NormalizedNotBuiltIn(v.items[i]);
      var item := EncodeValueAt(Normalize(v.items[i]), depth + 1, budget);
      if item.Err? {
        return Err(UnsupportedValue);
      }
      elements := elements + [item.value];
    }
    EncodedList(p, elements);
    return Ok(Node(ListTag).(list := Elements(elements)));
  }

  lemma NormalizedNotBuiltIn(v: Value)
    ensures !BuiltIn(Normalize(v))
  {}

  method EncodeEntry(v: Value, k: string, depth: nat, budget: ValueBudget) returns (r: Result<EncodedValue, CodecError>)
    requires budget.Valid() && v.Object? && k in v.fields && depth <= MAX_DEPTH
    modifies budget
    ensures budget.Valid()
    ensures r.Ok? <==> Storable(Plain(v).fields[k], MAX_DEPTH - depth - 1)
                       && old(budget.nodes) + 1 + TreeSize(Plain(v).fields[k], Nodes) <= MAX_NODES
                       && old(budget.bytes) + |k| + TreeSize(Plain(v).fields[k], Octets) <= MAX_ENVELOPE_BYTES
    ensures r.Ok? ==> r.value == Encoded(Plain(v).fields[k])
                      && budget.nodes == old(budget.nodes) + 1 + TreeSize(Plain(v).fields[k], Nodes)
                      && budget.bytes == old(budget.bytes) + |k| + TreeSize(Plain(v).fields[k], Octets)
    ensures r.Err? ==> r.error == UnsupportedValue
    decreases Levels(depth), 0
  {
    hide TreeSize, Storable, Encoded;
    PlainOfNormalize(v.fields[k]);
    NormalizedNotBuiltIn(v.fields[k]);
    var ok := budget.Consume(1, |k|);
    if !ok {
      return Err(UnsupportedValue);
    }
    r := EncodeValueAt(Normalize(v.fields[k]), depth + 1, budget);
  }

  method EncodeMap(v: Value, depth: nat, budget: ValueBudget) returns (r: Result<EncodedValue, CodecError>)
    requires budget.Valid() && v.Object? && depth <= MAX_DEPTH
    requires Plain(v).Object? && Plain(v).fields.Keys == v.fields.Keys
    modifies budget
    ensures budget.Valid()
    ensures r.Ok? <==> Storable(Plain(v), MAX_DEPTH - depth)
                       && old(budget.nodes) + FieldsSize(Plain(v), v.fields.Keys, Nodes) <= MAX_NODES
                       && old(budget.bytes) + FieldsSize(Plain(v), v.fields.Keys, Octets) <= MAX_ENVELOPE_BYTES
    ensures r.Ok? ==> r.value == Encoded(Plain(v))
                      && budget.nodes == old(budget.nodes) + FieldsSize(Plain(v), v.fields.Keys, Nodes)
                      && budget.bytes == old(budget.bytes) + FieldsSize(Plain(v), v.fields.Keys, Octets)
    ensures r.Err? ==> r.error == UnsupportedValue
    decreases Levels(depth), 1
  {
    hide TreeSize, FieldsSize, Storable, Encoded, Plain;
    ghost var p := Plain(v);
    ghost var room := MAX_DEPTH - depth;
    StorableChildren(p, room);
    var members: map<string, EncodedValue> := map[];
    var pending := v.fields.Keys;
    while pending != {}
      invariant budget.Valid() && pending <= p.fields.Keys
      invariant budget.nodes + FieldsSize(p, pending, Nodes) == old(budget.nodes) + FieldsSize(p, v.fields.Keys, Nodes)
      invariant budget.bytes + FieldsSize(p, pending, Octets) == old(budget.bytes)
                + FieldsSize(p, v.fields.Keys, Octets)
      invariant forall k :: k in p.fields ==> k in pending || k in members
      invariant forall k :: k in members ==> k in p.fields && k !in pending
                                             && members[k] == Encoded(p.fields[k]) && Storable(p.fields[k], room - 1)
      decreases |pending|
    {
      var k :| k in pending;
      FieldsSizeAnyOrder(p, pending, k, Nodes);
      FieldsSizeAnyOrder(p, pending, k, Octets);
      var item := EncodeEntry(v, k, depth, budget);
      if item.Err? {
        return Err(UnsupportedValue);
      }
      members := members[k := item.value];
      pending := pending - {k};
    }
    NoFields(p, Nodes);
    NoFields(p, Octets);
    EncodedMap(p, members);
    return Ok(Node(MapTag).(dict := Members(members)));
  }

  // ----- Decoder -----

  lemma ReadableChildren(e: EncodedValue, room: int)
    requires WellTagged(e)
    ensures e.tag.ListTag? ==> e.list.Elements?
    ensures e.tag.MapTag? ==> e.dict.Members?
    ensures e.tag.ListTag? ==>
              (Readable(e, room) <==>
               room >= 0 && forall i :: 0 <= i < |e.list.elements| ==> Readable(e.list.elements[i], room - 1))
    ensures e.tag.MapTag? ==>
              (Readable(e, room) <==>
               room >= 0 && forall k :: k in e.dict.members ==> Readable(e.dict.members[k], room - 1))
    ensures !e.tag.ListTag? && !e.tag.MapTag? ==> (Readable(e, room) <==> room >= 0 && ScalarAccepted(e))
  {
    hide WellTagged;
    RebuiltFromTag(e);
  }

  /** Data must be the base64 text of some octets and a number must be finite. */
  predicate ScalarAccepted(e: EncodedValue) {
    && (e.tag.BytesTag? ==> e.bytes.Some? && Base64.Accept(e.bytes.value).Some?)
    && (e.tag.FloatTag? ==> e.float.Some? && e.float.value.Finite?)
  }

  lemma StoredSizes(e: EncodedValue, unit: Unit)
    requires WellTagged(e)
    ensures e.tag.ListTag? ==> e.list.Elements?
    ensures e.tag.MapTag? ==> e.dict.Members?
    ensures e.tag.ListTag? ==> StoredSize(e, unit) == Charge(unit, 1, 0) + ElementsSize(e, |e.list.elements|, unit)
    ensures e.tag.MapTag? ==> StoredSize(e, unit) == Charge(unit, 1, 0) + MembersSize(e, e.dict.members.Keys, unit)
    ensures !e.tag.ListTag? && !e.tag.MapTag? ==> StoredSize(e, unit) == Charge(unit, 1, NodeOctets(e))
  {
    hide ElementsSize, MembersSize, WellTagged;
    RebuiltFromTag(e);
  }

  lemma NotReadable(e: EncodedValue, room: int)
    requires room < 0 || !WellTagged(e)
    ensures !Readable(e, room)
  {}

  method DecodeValueAt(e: EncodedValue, depth: nat, budget: ValueBudget) returns (r: Result<Value, CodecError>)
    requires budget.Valid()
    modifies budget
    ensures budget.Valid()
    ensures r.Ok? <==> Readable(e, MAX_DEPTH - depth)
                       && old(budget.nodes) + StoredSize(e, Nodes) <= MAX_NODES
                       && old(budget.bytes) + StoredSize(e, Octets) <= MAX_ENVELOPE_BYTES
    ensures r.Ok? ==> r.value == Decoded(e)
                      && budget.nodes == old(budget.nodes) + StoredSize(e, Nodes)
                      && budget.bytes == old(budget.bytes) + StoredSize(e, Octets)
    ensures r.Err? ==> r.error == InvalidEnvelope
    decreases Levels(depth), 2
  {
    hide StoredSize, ElementsSize, MembersSize, Readable, Decoded, WellTagged;
    if depth > MAX_DEPTH {
      NotReadable(e, MAX_DEPTH - depth);
      return Err(InvalidEnvelope);
    }
    var tagged := ValidateEncodedValue(e);
    if !tagged {
      NotReadable(e, MAX_DEPTH - depth);
      return Err(InvalidEnvelope);
    }
    ReadableChildren(e, MAX_DEPTH - depth);
    StoredSizes(e, Nodes);
    StoredSizes(e, Octets);
    RebuiltFromTag(e);
    var ok := budget.Consume(1, NodeOctets(e));
    if !ok {
      return Err(InvalidEnvelope);
    }
    if e.tag.ListTag? {
      r := DecodeSequence(e, depth, budget);
    } else if e.tag.MapTag? {
      r := DecodeMap(e, depth, budget);
    } else {
      r := DecodeScalar(e);
    }
  }

  method DecodeScalar(e: EncodedValue) returns (r: Result<Value, CodecError>)
    requires WellTagged(e) && !e.tag.ListTag? && !e.tag.MapTag?
    ensures r.Ok? <==> ScalarAccepted(e)
    ensures r.Ok? ==> r.value == Decoded(e)
    ensures r.Err? ==> r.error == InvalidEnvelope
  {
    hide WellTagged;
    RebuiltFromTag(e);
    match e.tag
    case NullTag => r := Ok(Null);
    case BoolTag => r := Ok(Bool(e.flag.value));
    case TextTag => r := Ok(Text(e.text.value));
    case BytesTag =>
      var decoded := Base64.Decode(e.bytes.value);
      if decoded.None? || Base64.Encode(decoded.value) != e.bytes.value {
        r := Err(InvalidEnvelope);
      } else {
        r := Ok(Bytes(decoded));
      }
    case IntTag => r := Ok(Int(W64, e.integer.value));
    case UintTag => r := Ok(Uint(W64, e.natural.value));
    case FloatTag => r := if e.float.value.Finite? then Ok(Float(true, e.float.value)) else Err(InvalidEnvelope);
    case UnknownTag(_) => r := Err(InvalidEnvelope);
  }

  lemma DecodedList(e: EncodedValue, items: seq<Value>)
    requires e.tag.ListTag? && e.list.Elements? && |items| == |e.list.elements|
    requires forall i :: 0 <= i < |items| ==> items[i] == Decoded(e.list.elements[i])
    ensures Decoded(e) == List(AnyList, items)
  {
    assert Decoded(e).items == items;
  }

  lemma DecodedMap(e: EncodedValue, fields: map<string, Value>)
    requires e.tag.MapTag? && e.dict.Members? && (forall k :: k in e.dict.members ==> k in fields)
    requires forall k :: k in fields ==> k in e.dict.members && fields[k] == Decoded(e.dict.members[k])
    ensures Decoded(e) == Object(AnyMap, fields)
  {
    assert Decoded(e).fields == fields;
  }

  method DecodeSequence(e: EncodedValue, depth: nat, budget: ValueBudget) returns (r: Result<Value, CodecError>)
    requires budget.Valid() && WellTagged(e) && e.tag.ListTag? && e.list.Elements? && depth <= MAX_DEPTH
    modifies budget
    ensures budget.Valid()
    ensures r.Ok? <==> Readable(e, MAX_DEPTH - depth)
                       && old(budget.nodes) + ElementsSize(e, |e.list.elements|, Nodes) <= MAX_NODES
                       && old(budget.bytes) + ElementsSize(e, |e.list.elements|, Octets) <= MAX_ENVELOPE_BYTES
    ensures r.Ok? ==> r.value == Decoded(e)
                      && budget.nodes == old(budget.nodes) + ElementsSize(e, |e.list.elements|, Nodes)
                      && budget.bytes == old(budget.bytes) + ElementsSize(e, |e.list.elements|, Octets)
    ensures r.Err? ==> r.error == InvalidEnvelope
    decreases Levels(depth), 1
  {
    hide StoredSize, Readable, Decoded, WellTagged;
    ghost var room := MAX_DEPTH - depth;
    ReadableChildren(e, room);
    var elements, items: seq<Value> := e.list.elements, [];
    for i := 0 to |elements|
      invariant budget.Valid() && |items| == i
      invariant budget.nodes == old(budget.nodes) + ElementsSize(e, i, Nodes)
      invariant budget.bytes == old(budget.bytes) + ElementsSize(e, i, Octets)
      invariant forall j :: 0 <= j < i ==> items[j] == Decoded(elements[j]) && Readable(elements[j], room - 1)
    {
      ElementsSizePrefix(e, i + 1, Nodes);
      ElementsSizePrefix(e, i + 1, Octets);
      var item := DecodeValueAt(elements[i], depth + 1, budget);
      if item.Err? {
        return Err(InvalidEnvelope);
      }
      items := items + [item.value];
    }
    DecodedList(e, items);
    return Ok(List(AnyList, items));
  }

  method DecodeEntry(e: EncodedValue, k: string, depth: nat, budget: ValueBudget) returns (r: Result<Value, CodecError>)
    requires budget.Valid() && e.dict.Members? && k in e.dict.members && depth <= MAX_DEPTH
    modifies budget
    ensures budget.Valid()
    ensures r.Ok? <==> Readable(e.dict.members[k], MAX_DEPTH - depth - 1)
                       && old(budget.nodes) + 1 + StoredSize(e.dict.members[k], Nodes) <= MAX_NODES
                       && old(budget.bytes) + |k| + StoredSize(e.dict.members[k], Octets) <= MAX_ENVELOPE_BYTES
    ensures r.Ok? ==> r.value == Decoded(e.dict.members[k])
                      && budget.nodes == old(budget.nodes) + 1 + StoredSize(e.dict.members[k], Nodes)
                      && budget.bytes == old(budget.bytes) + |k| + StoredSize(e.dict.members[k], Octets)
    ensures r.Err? ==> r.error == InvalidEnvelope
    decreases Levels(depth), 0
  {
    hide StoredSize, Readable, Decoded;
    var ok := budget.Consume(1, |k|);
    if !ok {
      return Err(InvalidEnvelope);
    }
    r := DecodeValueAt(e.dict.members[k], depth + 1, budget);
  }

  method DecodeMap(e: EncodedValue, depth: nat, budget: ValueBudget) returns (r: Result<Value, CodecError>)
    requires budget.Valid() && WellTagged(e) && e.tag.MapTag? && e.dict.Members? && depth <= MAX_DEPTH
    modifies budget
    ensures budget.Valid()
    ensures r.Ok? <==> Readable(e, MAX_DEPTH - depth)
                       && old(budget.nodes) + MembersSize(e, e.dict.members.Keys, Nodes) <= MAX_NODES
                       && old(budget.bytes) + MembersSize(e, e.dict.members.Keys, Octets) <= MAX_ENVELOPE_BYTES
    ensures r.Ok? ==> r.value == Decoded(e)
                      && budget.nodes == old(budget.nodes) + MembersSize(e, e.dict.members.Keys, Nodes)
                      && budget.bytes == old(budget.bytes) + MembersSize(e, e.dict.members.Keys, Octets)
    ensures r.Err? ==> r.error == InvalidEnvelope
    decreases Levels(depth), 1
  {
    hide StoredSize, MembersSize, Readable, Decoded, WellTagged;
    ghost var room := MAX_DEPTH - depth;
    ReadableChildren(e, room);
    var members, fields: map<string, Value> := e.dict.members, map[];
    var pending := members.Keys;
    while pending != {}
      invariant budget.Valid() && pending <= members.Keys
      invariant budget.nodes + MembersSize(e, pending, Nodes) == old(budget.nodes) + MembersSize(e, members.Keys, Nodes)
      invariant budget.bytes + MembersSize(e, pending, Octets) == old(budget.bytes)
                + MembersSize(e, members.Keys, Octets)
      invariant forall k :: k in members ==> k in pending || k in fields
      invariant forall k :: k in fields ==> k in members && k !in pending
                                            && fields[k] == Decoded(members[k]) && Readable(members[k], room - 1)
      decreases |pending|
    {
      var k :| k in pending;
      MembersSizeAnyOrder(e, pending, k, Nodes);
      MembersSizeAnyOrder(e, pending, k, Octets);
      var item := DecodeEntry(e, k, depth, budget);
      if item.Err? {
        return Err(InvalidEnvelope);
      }
      fields := fields[k := item.value];
      pending := pending - {k};
    }
    NoMembers(e, Nodes);
    NoMembers(e, Octets);
    DecodedMap(e, fields);
    return Ok(Object(AnyMap, fields));
  }
}
