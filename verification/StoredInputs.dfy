// Extension inputs of a ceremony in and out of storage: what the adapter can write,
// what it can read back, and that the second follows from the first.
module StoredInputs {
  import opened Base
  import opened Values
  import opened EncodedValues
  import opened ValueCodec
  import CloneWalk
  import Base64

  const MAX_ENTRIES := 64

  /** All inputs of a ceremony as one plain object keyed by extension id. */
  function Bundle(values: map<string, Input>): (bundle: Value)
    ensures bundle.Object?
  {
    Object(AnyMap, map id | id in values :: Plain(InputValue(values[id])))
  }

  lemma BundleFields(values: map<string, Input>)
    ensures Bundle(values).fields.Keys == values.Keys
    ensures forall id :: id in values ==> Bundle(values).fields[id] == Plain(InputValue(values[id]))
  {
    hide Plain, InputValue;
  }

  function StoredBundle(stored: map<string, EncodedValue>): EncodedValue {
    Node(MapTag).(dict := Members(stored))
  }

  function EncodedInputs(values: map<string, Input>): map<string, EncodedValue> {
    map id | id in values :: Encoded(Plain(InputValue(values[id])))
  }

  function DecodedInputs(stored: map<string, EncodedValue>): map<string, Input> {
    map id | id in stored :: Restored(Decoded(stored[id]))
  }

  /** An input the encoder supports on its own, whatever budget is left. */
  ghost predicate WritableEntry(id: string, input: Input) {
    ValidIdentifier(id) && CloneWalk.CloneAccepts(InputValue(input)) && Storable(Plain(InputValue(input)), MAX_DEPTH)
  }

  ghost predicate Writable(values: map<string, Input>) {
    && |values| <= MAX_ENTRIES
    && (forall id :: id in values ==> WritableEntry(id, values[id]))
    && FieldsSize(Bundle(values), Bundle(values).fields.Keys, Nodes) <= MAX_NODES
    && FieldsSize(Bundle(values), Bundle(values).fields.Keys, Octets) <= MAX_ENVELOPE_BYTES
  }

  ghost predicate ReadableInputs(stored: map<string, EncodedValue>) {
    && |stored| <= MAX_ENTRIES
    && (forall id :: id in stored ==> ValidIdentifier(id) && Readable(stored[id], MAX_DEPTH))
    && MembersSize(StoredBundle(stored), stored.Keys, Nodes) <= MAX_NODES
    && MembersSize(StoredBundle(stored), stored.Keys, Octets) <= MAX_ENVELOPE_BYTES
  }

  // ----- Writing -----

  /** Unwraps, copies, normalizes and encodes one input under its id. */
  method EncodeInput(id: string, input: Input, budget: ValueBudget) returns (r: Result<EncodedValue, CodecError>)
    requires budget.Valid()
    modifies budget
    ensures budget.Valid()
    ensures r.Ok? <==> WritableEntry(id, input)
                       && old(budget.nodes) + 1 + TreeSize(Plain(InputValue(input)), Nodes) <= MAX_NODES
                       && old(budget.bytes) + |id| + TreeSize(Plain(InputValue(input)), Octets) <= MAX_ENVELOPE_BYTES
    ensures r.Ok? ==> r.value == Encoded(Plain(InputValue(input)))
                      && budget.nodes == old(budget.nodes) + 1 + TreeSize(Plain(InputValue(input)), Nodes)
                      && budget.bytes == old(budget.bytes) + |id| + TreeSize(Plain(InputValue(input)), Octets)
    ensures r.Err? ==> r.error == UnsupportedValue
  {
    hide TreeSize, Storable, Encoded, Plain, CloneWalk.CloneAccepts;
    if !ValidIdentifier(id) {
      return Err(UnsupportedValue);
    }
    var ok := budget.Consume(1, |id|);
    if !ok {
      return Err(UnsupportedValue);
    }
    var copy := CloneWalk.CloneValue(InputValue(input));
    if copy.Err? {
      return Err(UnsupportedValue);
    }
    PlainOfNormalize(copy.value);
    NormalizedNotBuiltIn(copy.value);
    r := EncodeValueAt(Normalize(copy.value), 0, budget);
  }

  lemma EncodedInputsBuilt(inputs: map<string, Input>, out: map<string, EncodedValue>)
    requires forall id :: id in inputs ==> id in out
    requires forall id :: id in out ==> id in inputs && out[id] == Encoded(Plain(InputValue(inputs[id])))
    ensures out == EncodedInputs(inputs)
  {
    hide Encoded, Plain, InputValue;
  }

  method EncodeEntries(inputs: map<string, Input>) returns (r: Result<map<string, EncodedValue>, CodecError>)
    requires |inputs| <= MAX_ENTRIES
    ensures r.Ok? <==> Writable(inputs)
    ensures r.Ok? ==> r.value == EncodedInputs(inputs)
    ensures r.Err? ==> r.error == UnsupportedValue
  {
    BundleFields(inputs);
    ghost var b := Bundle(inputs);
    hide TreeSize, FieldsSize, Encoded, Plain, InputValue, EncodedInputs, WritableEntry, Bundle;
    var out: map<string, EncodedValue> := map[];
    var budget := new ValueBudget();
    var pending := inputs.Keys;
    while pending != {}
      invariant budget.Valid() && pending <= b.fields.Keys
      invariant budget.nodes + FieldsSize(b, pending, Nodes) == FieldsSize(b, b.fields.Keys, Nodes)
      invariant budget.bytes + FieldsSize(b, pending, Octets) == FieldsSize(b, b.fields.Keys, Octets)
      invariant forall id :: id in inputs ==> id in pending || id in out
      invariant forall id :: id in out ==>
                  id in inputs && id !in pending && out[id] == Encoded(Plain(InputValue(inputs[id])))
                  && WritableEntry(id, inputs[id])
      decreases |pending|
    {
      var id :| id in pending;
      FieldsSizeAnyOrder(b, pending, id, Nodes);
      FieldsSizeAnyOrder(b, pending, id, Octets);
      var encoded := EncodeInput(id, inputs[id], budget);
      if encoded.Err? {
        return Err(UnsupportedValue);
      }
      out := out[id := encoded.value];
      pending := pending - {id};
    }
    NoFields(b, Nodes);
    NoFields(b, Octets);
    EncodedInputsBuilt(inputs, out);
    return Ok(out);
  }

  method EncodeExtensionValues(values: Option<map<string, Input>>)
    returns (r: Result<Option<map<string, EncodedValue>>, CodecError>)
    ensures values.None? ==> r == Ok(None)
    ensures values.Some? ==> (r.Ok? <==> Writable(values.value))
    ensures values.Some? && r.Ok? ==> r.value == Some(EncodedInputs(values.value))
    ensures r.Err? ==> r.error == UnsupportedValue
  {
    if values.None? {
      return Ok(None);
    }
    if |values.value| > MAX_ENTRIES {
      return Err(UnsupportedValue);
    }
    hide Writable, EncodedInputs;
    var out := EncodeEntries(values.value);
    return if out.Ok? then Ok(Some(out.value)) else Err(UnsupportedValue);
  }

  // ----- Reading -----

  lemma {:induction false} StorableIsCopyable(v: Value, room: int)
    requires Storable(v, room)
    ensures CloneWalk.Copyable(v, room)
    decreases v
  {
    if v.List? {
      forall i | 0 <= i < |v.items| ensures CloneWalk.Copyable(v.items[i], room - 1) {
        StorableIsCopyable(v.items[i], room - 1);
      }
    } else if v.Object? {
      forall k | k in v.fields ensures CloneWalk.Copyable(v.fields[k], room - 1) {
        StorableIsCopyable(v.fields[k], room - 1);
      }
    }
  }

  /** The copy made after decoding never exceeds the copy's own budget. */
  lemma CopyAfterDecodeFits(e: EncodedValue)
    requires Readable(e, MAX_DEPTH)
    requires StoredSize(e, Nodes) <= MAX_NODES && StoredSize(e, Octets) <= MAX_ENVELOPE_BYTES
    ensures CloneWalk.CloneAccepts(Decoded(e))
  {
    hide TreeSize, StoredSize, Readable, Storable, Encoded, Decoded, CloneWalk.Copyable;
    EncodedOfDecoded(e, MAX_DEPTH);
    StoredAtLeast(Decoded(e), MAX_DEPTH, Nodes);
    StoredAtLeast(Decoded(e), MAX_DEPTH, Octets);
    StorableIsCopyable(Decoded(e), MAX_DEPTH);
  }

  method DecodeInput(id: string, e: EncodedValue, budget: ValueBudget) returns (r: Result<Input, CodecError>)
    requires budget.Valid()
    modifies budget
    ensures budget.Valid()
    ensures r.Ok? <==> ValidIdentifier(id) && Readable(e, MAX_DEPTH)
                       && old(budget.nodes) + 1 + StoredSize(e, Nodes) <= MAX_NODES
                       && old(budget.bytes) + |id| + StoredSize(e, Octets) <= MAX_ENVELOPE_BYTES
    ensures r.Ok? ==> r.value == Restored(Decoded(e))
                      && budget.nodes == old(budget.nodes) + 1 + StoredSize(e, Nodes)
                      && budget.bytes == old(budget.bytes) + |id| + StoredSize(e, Octets)
    ensures r.Err? ==> r.error == InvalidEnvelope
  {
    hide StoredSize, Readable, Decoded, CloneWalk.CloneAccepts;
    if !ValidIdentifier(id) {
      return Err(InvalidEnvelope);
    }
    var ok := budget.Consume(1, |id|);
    if !ok {
      return Err(InvalidEnvelope);
    }
    var decoded := DecodeValueAt(e, 0, budget);
    if decoded.Err? {
      return Err(InvalidEnvelope);
    }
    CopyAfterDecodeFits(e);
    if decoded.value.Bool? {
      return Ok(BoolInput(decoded.value.flag));
    }
    var copy := CloneWalk.CloneValue(decoded.value);
    if copy.Err? {
      return Err(InvalidEnvelope);
    }
    return Ok(Restored(copy.value));
  }

  lemma DecodedInputsBuilt(entries: map<string, EncodedValue>, out: map<string, Input>)
    requires forall id :: id in entries ==> id in out
    requires forall id :: id in out ==> id in entries && out[id] == Restored(Decoded(entries[id]))
    ensures out == DecodedInputs(entries)
  {
    hide Restored, Decoded;
  }

  method DecodeEntries(entries: map<string, EncodedValue>) returns (r: Result<map<string, Input>, CodecError>)
    requires |entries| <= MAX_ENTRIES
    ensures r.Ok? <==> ReadableInputs(entries)
    ensures r.Ok? ==> r.value == DecodedInputs(entries)
    ensures r.Err? ==> r.error == InvalidEnvelope
  {
    ghost var b := StoredBundle(entries);
    hide StoredSize, MembersSize, Readable, Decoded, Restored, ValidIdentifier, DecodedInputs;
    var out: map<string, Input> := map[];
    var budget := new ValueBudget();
    var pending := entries.Keys;
    while pending != {}
      invariant budget.Valid() && pending <= b.dict.members.Keys
      invariant budget.nodes + MembersSize(b, pending, Nodes) == MembersSize(b, entries.Keys, Nodes)
      invariant budget.bytes + MembersSize(b, pending, Octets) == MembersSize(b, entries.Keys, Octets)
      invariant forall id :: id in entries ==> id in pending || id in out
      invariant forall id :: id in out ==>
                  id in entries && id !in pending && out[id] == Restored(Decoded(entries[id]))
                  && ValidIdentifier(id) && Readable(entries[id], MAX_DEPTH)
      decreases |pending|
    {
      var id :| id in pending;
      MembersSizeAnyOrder(b, pending, id, Nodes);
      MembersSizeAnyOrder(b, pending, id, Octets);
      var decoded := DecodeInput(id, entries[id], budget);
      if decoded.Err? {
        return Err(InvalidEnvelope);
      }
      out := out[id := decoded.value];
      pending := pending - {id};
    }
    NoMembers(b, Nodes);
    NoMembers(b, Octets);
    DecodedInputsBuilt(entries, out);
    return Ok(out);
  }

  method DecodeExtensionValues(stored: Option<map<string, EncodedValue>>)
    returns (r: Result<Option<map<string, Input>>, CodecError>)
    ensures stored.None? ==> r == Ok(None)
    ensures stored.Some? ==> (r.Ok? <==> ReadableInputs(stored.value))
    ensures stored.Some? && r.Ok? ==> r.value == Some(DecodedInputs(stored.value))
    ensures r.Err? ==> r.error == InvalidEnvelope
  {
    if stored.None? {
      return Ok(None);
    }
    if |stored.value| > MAX_ENTRIES {
      return Err(InvalidEnvelope);
    }
    hide ReadableInputs, DecodedInputs;
    var out := DecodeEntries(stored.value);
    return if out.Ok? then Ok(Some(out.value)) else Err(InvalidEnvelope);
  }

  // ----- Writing implies reading -----

  lemma BundleStorable(values: map<string, Input>)
    requires Writable(values)
    ensures Storable(Bundle(values), MAX_DEPTH + 1)
    ensures Encoded(Bundle(values)) == StoredBundle(EncodedInputs(values))
  {
    hide TreeSize, FieldsSize, Plain, CloneWalk.CloneAccepts;
    var b := Bundle(values);
    assert b.fields.Keys == values.Keys;
    assert Encoded(b).dict.members == EncodedInputs(values);
  }

  /** Written inputs can be read back exactly when their stored octets, base64 included, fit the limit. */
  lemma WrittenReadsBack(values: map<string, Input>)
    requires Writable(values)
    ensures var stored := EncodedInputs(values);
            ReadableInputs(stored) <==> MembersSize(StoredBundle(stored), stored.Keys, Octets) <= MAX_ENVELOPE_BYTES
    ensures DecodedInputs(EncodedInputs(values))
         == map id | id in values :: Restored(Canon(Plain(InputValue(values[id]))))
  {
    hide TreeSize, StoredSize, FieldsSize, MembersSize, Storable, Readable, Encoded, Decoded, Plain,
      CloneWalk.CloneAccepts;
    var b, stored := Bundle(values), EncodedInputs(values);
    assert b.fields.Keys == values.Keys == stored.Keys;
    BundleStorable(values);
    StoredFieldsAtLeast(b, MAX_DEPTH + 1, b.fields.Keys, Nodes);
    assert |stored| == |values| by { assert |stored.Keys| == |values.Keys|; }
    forall id | id in values
      ensures Readable(stored[id], MAX_DEPTH) && Decoded(stored[id]) == Canon(Plain(InputValue(values[id])))
    {
      DecodedOfEncoded(Plain(InputValue(values[id])), MAX_DEPTH);
    }
  }

  /** Inputs marshalled into an envelope of permitted size are unmarshalled without error. The text of an envelope is
      at least as long as the strings it carries. */
  lemma MarshalImpliesUnmarshal(values: map<string, Input>, textLength: nat)
    requires Writable(values)
    requires MembersSize(StoredBundle(EncodedInputs(values)), EncodedInputs(values).Keys, Octets)
             <= textLength <= MAX_ENVELOPE_BYTES
    ensures ReadableInputs(EncodedInputs(values))
  {
    WrittenReadsBack(values);
  }

  // ----- Why the envelope limit is needed -----

  /** 800000 octets fit the encoder's budget, but their base64 text exceeds the decoder's. */
  function LargeInput(): map<string, Input> {
    map["x" := Raw(Bytes(Some(seq(800_000, _ => 0))))]
  }

  lemma OneInputSizes(id: string, input: Input, unit: Unit)
    ensures var b := Bundle(map[id := input]);
            FieldsSize(b, b.fields.Keys, unit) == Charge(unit, 1, |id|) + TreeSize(Plain(InputValue(input)), unit)
    ensures var stored := EncodedInputs(map[id := input]);
            MembersSize(StoredBundle(stored), stored.Keys, unit)
            == Charge(unit, 1, |id|) + StoredSize(Encoded(Plain(InputValue(input))), unit)
  {
    hide TreeSize, FieldsSize, StoredSize, MembersSize, Plain, Encoded, InputValue;
    var b, stored := Bundle(map[id := input]), EncodedInputs(map[id := input]);
    assert b.fields.Keys == {id} && {id} - {id} == {};
    FieldsSizeAnyOrder(b, {id}, id, unit);
    NoFields(b, unit);
    assert stored.Keys == {id};
    MembersSizeAnyOrder(StoredBundle(stored), {id}, id, unit);
    NoMembers(StoredBundle(stored), unit);
  }

  /** Without the envelope limit, inputs can be written that cannot be read back. */
  lemma WritableButNotReadable()
    ensures Writable(LargeInput()) && !ReadableInputs(EncodedInputs(LargeInput()))
  {
    var input := LargeInput()["x"];
    var v := InputValue(input);
    assert v == Bytes(Some(seq(800_000, _ => 0))) && Plain(v) == v;
    assert TreeSize(v, Nodes) == 1 && TreeSize(v, Octets) == 800_000;
    assert Storable(v, MAX_DEPTH) && CloneWalk.CloneAccepts(v);
    Base64.EncodeLength(v.data.value);
    assert StoredSize(Encoded(v), Octets) == |Base64.Encode(v.data.value)|;
    OneInputSizes("x", input, Nodes);
    OneInputSizes("x", input, Octets);
    assert LargeInput() == map["x" := input];
  }
}
