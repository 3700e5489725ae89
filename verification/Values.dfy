// Extension input values: the dynamic trees that handlers, the defensive copy and
// the storage codec exchange, and the typed prf and largeBlob inputs among them.
// A Dafny char of a text stands for one octet of the program's strings.
module Values {
  import opened Base

  datatype Width = Native | W8 | W16 | W32 | W64

  datatype Number = Finite(value: real) | NaN | Infinite(negative: bool)

  /** Element type of a list other than an octet slice. */
  datatype ListKind = AnyList | TextList | OtherList

  /** Element type of a text-keyed map. */
  datatype MapKind = AnyMap | TextMap | BoolMap | OtherMap

  /** One or two PRF values; None is a nil slice, Some([]) a present empty one. */
  datatype PrfValues = PrfValues(first: Option<seq<byte>>, second: Option<seq<byte>>)

  datatype PrfInput = PrfInput(
    eval: Option<PrfValues>,
    evalByCredential: Option<map<string, PrfValues>>,
    allowCredentials: Option<seq<string>>)

  datatype LargeBlobInput = LargeBlobInput(support: string, read: Option<bool>, write: Option<seq<byte>>)

  /** A value of dynamic type. Foreign is a value of any type the walkers do not know. */
  datatype Value =
    | Null
    | Bool(flag: bool)
    | Text(text: string)
    | Bytes(data: Option<seq<byte>>)
    | Int(width: Width, integer: int)
    | Uint(width: Width, natural: nat)
    | Float(wide: bool, number: Number)
    | List(listKind: ListKind, items: seq<Value>)
    | Object(mapKind: MapKind, fields: map<string, Value>)
    | Prf(prf: PrfInput)
    | PrfPair(pair: PrfValues)
    | LargeBlob(blob: LargeBlobInput)
    | Foreign

  predicate BuiltIn(v: Value) { v.Prf? || v.PrfPair? || v.LargeBlob? }

  /** An extension input held by a ceremony; Raw carries a restored or unknown value. */
  datatype Input =
    | BoolInput(flag: bool)
    | TextInput(text: string)
    | PrfIn(prf: PrfInput)
    | LargeBlobIn(blob: LargeBlobInput)
    | Raw(value: Value)

  /** The value an input stands for, before copying. */
  function InputValue(input: Input): Value {
    match input
    case BoolInput(b) => Bool(b)
    case TextInput(s) => Text(s)
    case PrfIn(p) => Prf(p)
    case LargeBlobIn(l) => LargeBlob(l)
    case Raw(v) => v
  }

  /** The typed boundary that a decoded or handler-normalized value is put behind. */
  function Restored(v: Value): Input {
    match v
    case Bool(b) => BoolInput(b)
    case Text(s) => TextInput(s)
    case Prf(p) => PrfIn(p)
    case LargeBlob(l) => LargeBlobIn(l)
    case _ => Raw(v)
  }

  // ----- Built-in inputs as plain objects -----

  function PrfValuesObject(p: PrfValues): Value {
    Object(AnyMap, map["first" := Bytes(p.first)]
                   + (if p.second.Some? then map["second" := Bytes(p.second)] else map[]))
  }

  function TextItems(ids: seq<string>): seq<Value> {
    seq(|ids|, i requires 0 <= i < |ids| => Text(ids[i]))
  }

  function ByCredentialObject(pairs: map<string, PrfValues>): Value {
    Object(AnyMap, map id | id in pairs :: PrfValuesObject(pairs[id]))
  }

  function PrfObject(p: PrfInput): Value {
    Object(AnyMap,
      (if p.eval.Some? then map["eval" := PrfValuesObject(p.eval.value)] else map[])
      + (if p.evalByCredential.Some?
         then map["evalByCredential" := ByCredentialObject(p.evalByCredential.value)] else map[])
      + (if p.allowCredentials.Some?
         then map["allowCredentials" := List(TextList, TextItems(p.allowCredentials.value))] else map[]))
  }

  function LargeBlobObject(l: LargeBlobInput): Value {
    Object(AnyMap,
      (if l.support != "" then map["support" := Text(l.support)] else map[])
      + (if l.read.Some? then map["read" := Bool(l.read.value)] else map[])
      + (if l.write.Some? then map["write" := Bytes(l.write)] else map[]))
  }

  /** Replaces a typed built-in input by the object that carries it; keeps other values. */
  function Normalize(v: Value): Value {
    match v
    case Prf(p) => PrfObject(p)
    case PrfPair(p) => PrfValuesObject(p)
    case LargeBlob(l) => LargeBlobObject(l)
    case _ => v
  }

  predicate IsPlain(v: Value) {
    match v
    case List(_, items) => forall i :: 0 <= i < |items| ==> IsPlain(items[i])
    case Object(_, fields) => forall k :: k in fields ==> IsPlain(fields[k])
    case _ => !BuiltIn(v)
  }

  /** The tree with every built-in input, at any depth, replaced by its object. */
  function Plain(v: Value): Value {
    match v
    case List(kind, items) => List(kind, seq(|items|, i requires 0 <= i < |items| => Plain(items[i])))
    case Object(kind, fields) => Object(kind, map k | k in fields :: Plain(fields[k]))
    case _ => Normalize(v)
  }

  lemma PairIsPlain(p: PrfValues)
    ensures IsPlain(PrfValuesObject(p))
  {}

  lemma ByCredentialIsPlain(pairs: map<string, PrfValues>)
    ensures IsPlain(ByCredentialObject(pairs))
  {
    var fields := ByCredentialObject(pairs).fields;
    forall id | id in fields ensures IsPlain(fields[id]) { PairIsPlain(pairs[id]); }
  }

  lemma TextItemsPlain(ids: seq<string>)
    ensures IsPlain(List(TextList, TextItems(ids)))
  {
    var items := TextItems(ids);
    forall i | 0 <= i < |items| ensures IsPlain(items[i]) {}
  }

  lemma JoinPlain(a: map<string, Value>, b: map<string, Value>)
    requires forall k :: k in a ==> IsPlain(a[k])
    requires forall k :: k in b ==> IsPlain(b[k])
    ensures forall k :: k in a + b ==> IsPlain((a + b)[k])
  {}

  lemma PrfIsPlain(p: PrfInput)
    ensures IsPlain(PrfObject(p))
  {
    var a := if p.eval.Some? then map["eval" := PrfValuesObject(p.eval.value)] else map[];
    var b := if p.evalByCredential.Some?
      then map["evalByCredential" := ByCredentialObject(p.evalByCredential.value)] else map[];
    var c := if p.allowCredentials.Some?
      then map["allowCredentials" := List(TextList, TextItems(p.allowCredentials.value))] else map[];
    if p.eval.Some? { PairIsPlain(p.eval.value); }
    if p.evalByCredential.Some? { ByCredentialIsPlain(p.evalByCredential.value); }
    if p.allowCredentials.Some? { TextItemsPlain(p.allowCredentials.value); }
    JoinPlain(a, b);
    JoinPlain(a + b, c);
  }

  lemma NormalizeIsPlain(v: Value)
    requires BuiltIn(v)
    ensures IsPlain(Normalize(v)) && Normalize(v).Object?
  {
    match v
    case Prf(p) => PrfIsPlain(p);
    case PrfPair(p) => PairIsPlain(p);
    case LargeBlob(l) =>
  }

  lemma {:induction false} PlainOfPlain(v: Value)
    requires IsPlain(v)
    ensures Plain(v) == v
  {
    match v
    case List(kind, items) =>
      forall i | 0 <= i < |items| ensures Plain(items[i]) == items[i] { PlainOfPlain(items[i]); }
      assert Plain(v).items == items;
    case Object(kind, fields) =>
      forall k | k in fields ensures Plain(fields[k]) == fields[k] { PlainOfPlain(fields[k]); }
      assert Plain(v).fields == fields;
    case _ =>
  }

  lemma {:induction false} PlainIsPlain(v: Value)
    ensures IsPlain(Plain(v))
  {
    match v
    case List(kind, items) =>
      forall i | 0 <= i < |items| ensures IsPlain(Plain(v).items[i]) { PlainIsPlain(items[i]); }
    case Object(kind, fields) =>
      forall k | k in fields ensures IsPlain(Plain(v).fields[k]) { PlainIsPlain(fields[k]); }
    case _ => if BuiltIn(v) { NormalizeIsPlain(v); }
  }

  /** Normalizing one level first, as the encoder does, reaches the same plain tree. */
  lemma PlainOfNormalize(v: Value)
    ensures Plain(Normalize(v)) == Plain(v)
  {
    if BuiltIn(v) {
      NormalizeIsPlain(v);
      PlainOfPlain(Normalize(v));
    }
  }

  // ----- Size -----

  function OptionLength(data: Option<seq<byte>>): nat { if data.Some? then |data.value| else 0 }

  function PairBytes(p: PrfValues): nat { OptionLength(p.first) + OptionLength(p.second) }

  function EvalSize(eval: Option<PrfValues>, unit: Unit): nat {
    if eval.Some? then Charge(unit, 2, PairBytes(eval.value)) else 0
  }

  /** Charge for the first `n` allowed credential ids. */
  function AllowedSize(ids: seq<string>, n: nat, unit: Unit): nat
    requires n <= |ids|
  {
    if n == 0 then 0 else AllowedSize(ids, n - 1, unit) + Charge(unit, 1, |ids[n - 1]|)
  }

  function PairSize(pairs: map<string, PrfValues>, k: string, unit: Unit): nat
    requires k in pairs
  {
    Charge(unit, 3, |k| + PairBytes(pairs[k]))
  }

  /** Charge for some of the per-credential values, added up in an arbitrary order. */
  ghost function PairsSize(pairs: map<string, PrfValues>, keys: set<string>, unit: Unit): nat
    requires keys <= pairs.Keys
  {
    if keys == {} then 0
    else
      var k :| k in keys;
      PairSize(pairs, k, unit) + PairsSize(pairs, keys - {k}, unit)
  }

  function IdsOf(p: PrfInput): seq<string> { if p.allowCredentials.Some? then p.allowCredentials.value else [] }

  function PairsOf(p: PrfInput): map<string, PrfValues> {
    if p.evalByCredential.Some? then p.evalByCredential.value else map[]
  }

  ghost function PrfSize(p: PrfInput, unit: Unit): nat {
    Charge(unit, 1, 0) + EvalSize(p.eval, unit) + AllowedSize(IdsOf(p), |IdsOf(p)|, unit)
    + PairsSize(PairsOf(p), PairsOf(p).Keys, unit)
  }

  /** Charge for a value without list or map children; a built-in input is charged as a whole. */
  ghost function LeafSize(v: Value, unit: Unit): nat {
    match v
    case Text(s) => Charge(unit, 1, |s|)
    case Bytes(data) => Charge(unit, 1, OptionLength(data))
    case Prf(p) => PrfSize(p, unit)
    case PrfPair(p) => Charge(unit, 3, PairBytes(p))
    case LargeBlob(l) => Charge(unit, 3, OptionLength(l.write))
    case _ => Charge(unit, 1, 0)
  }

  /** Nodes or octets of a value. */
  ghost function TreeSize(v: Value, unit: Unit): nat
    decreases v, 1
  {
    if v.List? then Charge(unit, 1, 0) + ItemsSize(v, |v.items|, unit)
    else if v.Object? then Charge(unit, 1, 0) + FieldsSize(v, v.fields.Keys, unit)
    else LeafSize(v, unit)
  }

  /** Size of the first `n` items of a list. */
  ghost function ItemsSize(v: Value, n: nat, unit: Unit): nat
    requires v.List? && n <= |v.items|
    decreases v, 0, n
  {
    if n == 0 then 0 else ItemsSize(v, n - 1, unit) + TreeSize(v.items[n - 1], unit)
  }

  /** Size of some of a map's entries, keys included, added up in an arbitrary order. */
  ghost function FieldsSize(v: Value, keys: set<string>, unit: Unit): nat
    requires v.Object? && keys <= v.fields.Keys
    decreases v, 0, |keys|
  {
    if keys == {} then 0
    else
      var k :| k in keys;
      Charge(unit, 1, |k|) + TreeSize(v.fields[k], unit) + FieldsSize(v, keys - {k}, unit)
  }

  /** The order in which the entries are visited does not change their size. */
  lemma {:induction false} FieldsSizeAnyOrder(v: Value, keys: set<string>, k: string, unit: Unit)
    requires v.Object? && keys <= v.fields.Keys && k in keys
    ensures FieldsSize(v, keys, unit)
         == Charge(unit, 1, |k|) + TreeSize(v.fields[k], unit) + FieldsSize(v, keys - {k}, unit)
    decreases |keys|
  {
    hide TreeSize, Charge;
    var first :| first in keys && FieldsSize(v, keys, unit)
      == Charge(unit, 1, |first|) + TreeSize(v.fields[first], unit) + FieldsSize(v, keys - {first}, unit);
    if first != k {
      FieldsSizeAnyOrder(v, keys - {first}, k, unit);
      FieldsSizeAnyOrder(v, keys - {k}, first, unit);
      assert keys - {first} - {k} == keys - {k} - {first};
    }
  }

  lemma {:induction false} PairsSizeAnyOrder(pairs: map<string, PrfValues>, keys: set<string>, k: string, unit: Unit)
    requires keys <= pairs.Keys && k in keys
    ensures PairsSize(pairs, keys, unit) == PairSize(pairs, k, unit) + PairsSize(pairs, keys - {k}, unit)
    decreases |keys|
  {
    hide PairSize;
    var first :| first in keys
      && PairsSize(pairs, keys, unit) == PairSize(pairs, first, unit) + PairsSize(pairs, keys - {first}, unit);
    if first != k {
      PairsSizeAnyOrder(pairs, keys - {first}, k, unit);
      PairsSizeAnyOrder(pairs, keys - {k}, first, unit);
      assert keys - {first} - {k} == keys - {k} - {first};
    }
  }

  /** TreeSize, one level at a time. */
  lemma SizeByShape(v: Value, unit: Unit)
    ensures v.List? ==> TreeSize(v, unit) == Charge(unit, 1, 0) + ItemsSize(v, |v.items|, unit)
    ensures v.Object? ==> TreeSize(v, unit) == Charge(unit, 1, 0) + FieldsSize(v, v.fields.Keys, unit)
    ensures !v.List? && !v.Object? ==> TreeSize(v, unit) == LeafSize(v, unit)
  {
    hide LeafSize, ItemsSize, FieldsSize;
  }

  lemma NoFields(v: Value, unit: Unit)
    requires v.Object?
    ensures FieldsSize(v, {}, unit) == 0
  {}

  lemma {:induction false} ItemsSizePrefix(v: Value, n: nat, unit: Unit)
    requires v.List? && n <= |v.items|
    ensures ItemsSize(v, n, unit) <= ItemsSize(v, |v.items|, unit)
    decreases |v.items| - n
  {
    if n < |v.items| { ItemsSizePrefix(v, n + 1, unit); }
  }

  // ----- Canonical form -----

  /** The value that storage gives back: widened numbers, plain lists and maps, no nil slices. */
  function Canon(v: Value): Value {
    match v
    case Bytes(data) => Bytes(Some(if data.Some? then data.value else []))
    case Int(_, n) => Int(W64, n)
    case Uint(_, n) => Uint(W64, n)
    case Float(_, x) => Float(true, x)
    case List(_, items) => List(AnyList, seq(|items|, i requires 0 <= i < |items| => Canon(items[i])))
    case Object(_, fields) => Object(AnyMap, map k | k in fields :: Canon(fields[k]))
    case _ => v
  }

  lemma {:induction false} CanonIdempotent(v: Value)
    ensures Canon(Canon(v)) == Canon(v)
  {
    match v
    case List(_, items) =>
      forall i | 0 <= i < |items| ensures Canon(Canon(items[i])) == Canon(items[i]) { CanonIdempotent(items[i]); }
      assert Canon(Canon(v)).items == Canon(v).items;
    case Object(_, fields) =>
      forall k | k in fields ensures Canon(Canon(fields[k])) == Canon(fields[k]) { CanonIdempotent(fields[k]); }
      assert Canon(Canon(v)).fields == Canon(v).fields;
    case _ =>
  }
}
