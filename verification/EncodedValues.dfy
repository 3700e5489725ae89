// The storage form of extension inputs: trees of tagged nodes, the node each value
// is stored as, the value each node stands for, and how the two undo each other.
module EncodedValues {
  import opened Base
  import opened Values
  import Base64

  datatype ListField = NoList | Elements(elements: seq<EncodedValue>)
  datatype MapField = NoMap | Members(members: map<string, EncodedValue>)

  /** The type name of a stored node; a name the decoder does not know is kept as it is. */
  datatype Tag =
    | NullTag | BoolTag | TextTag | BytesTag | IntTag | UintTag | FloatTag | ListTag | MapTag
    | UnknownTag(name: string)

  /** One stored node: a tag and eight optional fields, of which the tag names one. */
  datatype EncodedValue = EncodedValue(
    tag: Tag,
    flag: Option<bool>,
    text: Option<string>,
    bytes: Option<string>,
    integer: Option<int>,
    natural: Option<nat>,
    float: Option<Number>,
    list: ListField,
    dict: MapField)

  function Node(tag: Tag): EncodedValue {
    EncodedValue(tag, None, None, None, None, None, None, NoList, NoMap)
  }

  // ----- Well-tagged nodes -----

  function PresentFields(e: EncodedValue): (present: seq<bool>)
    ensures |present| == 8
  {
    [e.flag.Some?, e.text.Some?, e.bytes.Some?, e.integer.Some?,
     e.natural.Some?, e.float.Some?, e.list.Elements?, e.dict.Members?]
  }

  /** Position of the field that a tag names; null names none of the eight. */
  function FieldOf(tag: Tag): nat {
    match tag
    case BoolTag => 0
    case TextTag => 1
    case BytesTag => 2
    case IntTag => 3
    case UintTag => 4
    case FloatTag => 5
    case ListTag => 6
    case MapTag => 7
    case _ => 8
  }

  /** The tag is known and the field it names is the only one present. */
  predicate WellTagged(e: EncodedValue) {
    && !e.tag.UnknownTag?
    && forall i :: 0 <= i < 8 ==> (PresentFields(e)[i] <==> i == FieldOf(e.tag))
  }

  function CountTrue(present: seq<bool>, n: nat): nat
    requires n <= |present|
  {
    if n == 0 then 0 else CountTrue(present, n - 1) + if present[n - 1] then 1 else 0
  }

  lemma {:induction false} NoneCounted(present: seq<bool>, n: nat)
    requires n <= |present|
    ensures CountTrue(present, n) == 0 <==> forall i :: 0 <= i < n ==> !present[i]
  {
    if n != 0 { NoneCounted(present, n - 1); }
  }

  lemma {:induction false} OneCounted(present: seq<bool>, n: nat, k: nat)
    requires k < n <= |present|
    ensures CountTrue(present, n) == 1 && present[k] <==> forall i :: 0 <= i < n ==> (present[i] <==> i == k)
  {
    NoneCounted(present, n - 1);
    if k < n - 1 { OneCounted(present, n - 1, k); }
  }

  /** Counts the fields that are present and compares them with the tag. */
  method ValidateEncodedValue(e: EncodedValue) returns (valid: bool)
    ensures valid == WellTagged(e)
  {
    var fields, present := 0, PresentFields(e);
    for i := 0 to |present|
      invariant fields == CountTrue(present, i)
    {
      if present[i] { fields := fields + 1; }
    }
    hide CountTrue;
    NoneCounted(present, 8);
    if FieldOf(e.tag) < 8 { OneCounted(present, 8, FieldOf(e.tag)); }
    match e.tag
    case NullTag => valid := fields == 0;
    case BoolTag => valid := fields == 1 && e.flag.Some?;
    case TextTag => valid := fields == 1 && e.text.Some?;
    case BytesTag => valid := fields == 1 && e.bytes.Some?;
    case IntTag => valid := fields == 1 && e.integer.Some?;
    case UintTag => valid := fields == 1 && e.natural.Some?;
    case FloatTag => valid := fields == 1 && e.float.Some?;
    case ListTag => valid := fields == 1 && e.list.Elements?;
    case MapTag => valid := fields == 1 && e.dict.Members?;
    case UnknownTag(_) => valid := false;
  }

  // ----- From values to nodes -----

  /** A plain value the encoder supports, no leaf more than `room` levels below the root. */
  predicate Storable(v: Value, room: int) {
    && room >= 0
    && !BuiltIn(v)
    && !v.Foreign?
    && (v.Float? ==> v.number.Finite?)
    && (v.List? ==> forall i :: 0 <= i < |v.items| ==> Storable(v.items[i], room - 1))
    && (v.Object? ==> forall k :: k in v.fields ==> Storable(v.fields[k], room - 1))
  }

  /** The node a storable value is stored as. */
  function Encoded(v: Value): EncodedValue {
    match v
    case Bool(b) => Node(BoolTag).(flag := Some(b))
    case Text(s) => Node(TextTag).(text := Some(s))
    case Bytes(data) => Node(BytesTag).(bytes := Some(Base64.Encode(if data.Some? then data.value else [])))
    case Int(_, n) => Node(IntTag).(integer := Some(n))
    case Uint(_, n) => Node(UintTag).(natural := Some(n))
    case Float(_, x) => Node(FloatTag).(float := Some(x))
    case List(_, items) =>
      Node(ListTag).(list := Elements(seq(|items|, i requires 0 <= i < |items| => Encoded(items[i]))))
    case Object(_, fields) => Node(MapTag).(dict := Members(map k | k in fields :: Encoded(fields[k])))
    case _ => Node(NullTag)
  }

  // ----- From nodes to values -----

  /** A node the decoder accepts, no leaf more than `room` levels below it. */
  predicate Readable(e: EncodedValue, room: int) {
    && room >= 0
    && WellTagged(e)
    && (e.tag.BytesTag? ==> e.bytes.Some? && Base64.Accept(e.bytes.value).Some?)
    && (e.tag.FloatTag? ==> e.float.Some? && e.float.value.Finite?)
    && (e.list.Elements? ==> forall i :: 0 <= i < |e.list.elements| ==> Readable(e.list.elements[i], room - 1))
    && (e.dict.Members? ==> forall k :: k in e.dict.members ==> Readable(e.dict.members[k], room - 1))
  }

  /** The value a readable node stands for. */
  function Decoded(e: EncodedValue): Value {
    match e.tag
    case BoolTag => if e.flag.Some? then Bool(e.flag.value) else Null
    case TextTag => if e.text.Some? then Text(e.text.value) else Null
    case BytesTag => if e.bytes.Some? then Bytes(Base64.Accept(e.bytes.value)) else Null
    case IntTag => if e.integer.Some? then Int(W64, e.integer.value) else Null
    case UintTag => if e.natural.Some? then Uint(W64, e.natural.value) else Null
    case FloatTag => if e.float.Some? then Float(true, e.float.value) else Null
    case ListTag =>
      if e.list.Elements?
      then List(AnyList, seq(|e.list.elements|, i requires 0 <= i < |e.list.elements| => Decoded(e.list.elements[i])))
      else Null
    case MapTag =>
      if e.dict.Members? then Object(AnyMap, map k | k in e.dict.members :: Decoded(e.dict.members[k])) else Null
    case _ => Null
  }

  // ----- What the decoder charges -----

  function TextLength(text: Option<string>): nat { if text.Some? then |text.value| else 0 }

  function NodeOctets(e: EncodedValue): nat {
    if e.text.Some? then |e.text.value| else TextLength(e.bytes)
  }

  /** Nodes or octets of a stored tree; data is charged at the length of its base64 text. */
  ghost function StoredSize(e: EncodedValue, unit: Unit): nat
    decreases e, 1
  {
    Charge(unit, 1, NodeOctets(e))
    + (if e.list.Elements? then ElementsSize(e, |e.list.elements|, unit) else 0)
    + (if e.dict.Members? then MembersSize(e, e.dict.members.Keys, unit) else 0)
  }

  ghost function ElementsSize(e: EncodedValue, n: nat, unit: Unit): nat
    requires e.list.Elements? && n <= |e.list.elements|
    decreases e, 0, n
  {
    if n == 0 then 0 else ElementsSize(e, n - 1, unit) + StoredSize(e.list.elements[n - 1], unit)
  }

  ghost function MembersSize(e: EncodedValue, keys: set<string>, unit: Unit): nat
    requires e.dict.Members? && keys <= e.dict.members.Keys
    decreases e, 0, |keys|
  {
    if keys == {} then 0
    else
      var k :| k in keys;
      Charge(unit, 1, |k|) + StoredSize(e.dict.members[k], unit) + MembersSize(e, keys - {k}, unit)
  }

  lemma {:induction false} MembersSizeAnyOrder(e: EncodedValue, keys: set<string>, k: string, unit: Unit)
    requires e.dict.Members? && keys <= e.dict.members.Keys && k in keys
    ensures MembersSize(e, keys, unit)
         == Charge(unit, 1, |k|) + StoredSize(e.dict.members[k], unit) + MembersSize(e, keys - {k}, unit)
    decreases |keys|
  {
    hide StoredSize, Charge;
    var first :| first in keys && MembersSize(e, keys, unit)
      == Charge(unit, 1, |first|) + StoredSize(e.dict.members[first], unit) + MembersSize(e, keys - {first}, unit);
    if first != k {
      MembersSizeAnyOrder(e, keys - {first}, k, unit);
      MembersSizeAnyOrder(e, keys - {k}, first, unit);
      assert keys - {first} - {k} == keys - {k} - {first};
    }
  }

  lemma {:induction false} ElementsSizePrefix(e: EncodedValue, n: nat, unit: Unit)
    requires e.list.Elements? && n <= |e.list.elements|
    ensures ElementsSize(e, n, unit) <= ElementsSize(e, |e.list.elements|, unit)
    decreases |e.list.elements| - n
  {
    if n < |e.list.elements| { ElementsSizePrefix(e, n + 1, unit); }
  }

  lemma NoMembers(e: EncodedValue, unit: Unit)
    requires e.dict.Members?
    ensures MembersSize(e, {}, unit) == 0
  {}

  // ----- The two directions undo each other -----

  lemma ScalarRoundTrip(v: Value, room: int)
    requires Storable(v, room) && !v.List? && !v.Object?
    ensures Readable(Encoded(v), room) && Decoded(Encoded(v)) == Canon(v)
  {
    if v.Bytes? {
      Base64.AcceptExactlyEncodings(Encoded(v).bytes.value, if v.data.Some? then v.data.value else []);
    }
  }

  /** Storing a value gives a readable node that stands for the value's canonical form. */
  lemma {:induction false} DecodedOfEncoded(v: Value, room: int)
    requires Storable(v, room)
    ensures Readable(Encoded(v), room)
    ensures Decoded(Encoded(v)) == Canon(v)
    decreases v
  {
    if !v.List? && !v.Object? {
      ScalarRoundTrip(v, room);
    } else if v.List? {
      var elements := Encoded(v).list.elements;
      forall i | 0 <= i < |v.items|
        ensures Readable(elements[i], room - 1) && Decoded(elements[i]) == Canon(v.items[i])
      {
        DecodedOfEncoded(v.items[i], room - 1);
      }
      assert Decoded(Encoded(v)).items == Canon(v).items;
    } else {
      var members := Encoded(v).dict.members;
      forall k | k in v.fields
        ensures Readable(members[k], room - 1) && Decoded(members[k]) == Canon(v.fields[k])
      {
        DecodedOfEncoded(v.fields[k], room - 1);
      }
      assert Decoded(Encoded(v)).fields == Canon(v).fields;
    }
  }

  /** A well-tagged node is fixed by its tag and the field the tag names. */
  lemma RebuiltFromTag(e: EncodedValue)
    requires WellTagged(e)
    ensures e.tag.ListTag? <==> e.list.Elements?
    ensures e.tag.MapTag? <==> e.dict.Members?
    ensures (e.tag.BytesTag? <==> e.bytes.Some?) && (e.tag.TextTag? <==> e.text.Some?)
    ensures (e.tag.BoolTag? <==> e.flag.Some?) && (e.tag.FloatTag? <==> e.float.Some?)
    ensures (e.tag.IntTag? <==> e.integer.Some?) && (e.tag.UintTag? <==> e.natural.Some?)
    ensures e == match e.tag
                 case BoolTag => Node(BoolTag).(flag := e.flag)
                 case TextTag => Node(TextTag).(text := e.text)
                 case BytesTag => Node(BytesTag).(bytes := e.bytes)
                 case IntTag => Node(IntTag).(integer := e.integer)
                 case UintTag => Node(UintTag).(natural := e.natural)
                 case FloatTag => Node(FloatTag).(float := e.float)
                 case ListTag => Node(ListTag).(list := e.list)
                 case MapTag => Node(MapTag).(dict := e.dict)
                 case _ => Node(NullTag)
  {
    var p := PresentFields(e);
    assert p[0] == e.flag.Some? && p[1] == e.text.Some? && p[2] == e.bytes.Some? && p[3] == e.integer.Some?;
    assert p[4] == e.natural.Some? && p[5] == e.float.Some? && p[6] == e.list.Elements? && p[7] == e.dict.Members?;
  }

  lemma ScalarReadBack(e: EncodedValue, room: int)
    requires Readable(e, room) && !e.tag.ListTag? && !e.tag.MapTag?
    ensures Storable(Decoded(e), room) && Canon(Decoded(e)) == Decoded(e) && Encoded(Decoded(e)) == e
  {
    RebuiltFromTag(e);
    if e.tag.BytesTag? {
      Base64.AcceptExactlyEncodings(e.bytes.value, Decoded(e).data.value);
    }
  }

  /** Reading a node gives a canonical storable value that is stored as that very node. */
  lemma {:induction false} EncodedOfDecoded(e: EncodedValue, room: int)
    requires Readable(e, room)
    ensures Storable(Decoded(e), room)
    ensures Canon(Decoded(e)) == Decoded(e)
    ensures Encoded(Decoded(e)) == e
    decreases e
  {
    hide WellTagged;
    RebuiltFromTag(e);
    var v := Decoded(e);
    if !e.tag.ListTag? && !e.tag.MapTag? {
      ScalarReadBack(e, room);
    } else if e.tag.ListTag? {
      var elements := e.list.elements;
      forall i | 0 <= i < |elements|
        ensures Storable(v.items[i], room - 1) && Canon(v.items[i]) == v.items[i] && Encoded(v.items[i]) == elements[i]
      {
        EncodedOfDecoded(elements[i], room - 1);
      }
      assert Canon(v).items == v.items && Encoded(v).list.elements == elements;
    } else {
      var members := e.dict.members;
      forall k | k in members
        ensures Storable(v.fields[k], room - 1) && Canon(v.fields[k]) == v.fields[k]
                  && Encoded(v.fields[k]) == members[k]
      {
        EncodedOfDecoded(members[k], room - 1);
      }
      assert Canon(v).fields == v.fields && Encoded(v).dict.members == members;
    }
  }

  /** The decoder charges as many nodes as the encoder did and at least as many octets. */
  lemma {:induction false} StoredAtLeast(v: Value, room: int, unit: Unit)
    requires Storable(v, room)
    ensures TreeSize(v, unit) <= StoredSize(Encoded(v), unit)
    ensures unit.Nodes? ==> StoredSize(Encoded(v), unit) == TreeSize(v, unit)
    decreases v, 1
  {
    hide TreeSize, ItemsSize, FieldsSize, ElementsSize, MembersSize, PrfSize;
    SizeByShape(v, unit);
    if v.List? {
      StoredItemsAtLeast(v, room, |v.items|, unit);
    } else if v.Object? {
      assert Encoded(v).dict.members.Keys == v.fields.Keys;
      StoredFieldsAtLeast(v, room, v.fields.Keys, unit);
    }
  }

  lemma {:induction false} StoredItemsAtLeast(v: Value, room: int, n: nat, unit: Unit)
    requires Storable(v, room) && v.List? && n <= |v.items|
    ensures ItemsSize(v, n, unit) <= ElementsSize(Encoded(v), n, unit)
    ensures unit.Nodes? ==> ElementsSize(Encoded(v), n, unit) == ItemsSize(v, n, unit)
    decreases v, 0, n
  {
    hide TreeSize, StoredSize;
    if n != 0 {
      StoredItemsAtLeast(v, room, n - 1, unit);
      StoredAtLeast(v.items[n - 1], room - 1, unit);
    }
  }

  lemma {:induction false} StoredFieldsAtLeast(v: Value, room: int, keys: set<string>, unit: Unit)
    requires Storable(v, room) && v.Object? && keys <= v.fields.Keys
    ensures keys <= Encoded(v).dict.members.Keys
    ensures FieldsSize(v, keys, unit) <= MembersSize(Encoded(v), keys, unit)
    ensures unit.Nodes? ==> MembersSize(Encoded(v), keys, unit) == FieldsSize(v, keys, unit)
    decreases v, 0, |keys|
  {
    hide TreeSize, StoredSize, FieldsSize, MembersSize;
    var e := Encoded(v);
    assert e.dict.members.Keys == v.fields.Keys;
    if keys == {} {
      NoFields(v, unit);
      NoMembers(e, unit);
    } else {
      var k :| k in keys;
      StoredFieldsAtLeast(v, room, keys - {k}, unit);
      StoredAtLeast(v.fields[k], room - 1, unit);
      FieldsSizeAnyOrder(v, keys, k, unit);
      MembersSizeAnyOrder(e, keys, k, unit);
    }
  }
}
