// The prf and largeBlob handlers: how they parse a live or restored input value, what
// they accept at each ceremony, and that storage does not change their decisions.
module InputHandlers {
  import opened Base
  import opened Values
  import opened StoredInputs
  import Base64

  datatype Operation = Registration | Authentication

  datatype HandlerError = InvalidRequest

  // ----- prf -----

  /** Text-keyed maps whose entries the handlers read as fields. */
  predicate HasFields(v: Value) { v.Object? && !v.mapKind.OtherMap? }

  predicate PairPresent(p: PrfValues) { p.first.Some? }

  function ParsePair(v: Value): Option<PrfValues> {
    if v.PrfPair? then
      if PairPresent(v.pair) then Some(v.pair) else None
    else if !HasFields(v) || "first" !in v.fields || !v.fields["first"].Bytes? || v.fields["first"].data.None? then None
    else if "second" in v.fields then
      if v.fields["second"].Bytes? then Some(PrfValues(v.fields["first"].data, v.fields["second"].data)) else None
    else Some(PrfValues(v.fields["first"].data, None))
  }

  /** Every value that the typed input carries has its first part. */
  predicate FirstsPresent(p: PrfInput) {
    && (p.eval.Some? ==> PairPresent(p.eval.value))
    && (p.evalByCredential.Some? ==> forall id :: id in p.evalByCredential.value ==>
        PairPresent(p.evalByCredential.value[id]))
  }

  predicate EvalParses(fields: map<string, Value>) {
    "eval" in fields ==> ParsePair(fields["eval"]).Some?
  }

  predicate ByCredentialParses(fields: map<string, Value>) {
    "evalByCredential" in fields ==>
      && fields["evalByCredential"].Object? && fields["evalByCredential"].mapKind.AnyMap?
      && forall id :: id in fields["evalByCredential"].fields ==> ParsePair(fields["evalByCredential"].fields[id]).Some?
  }

  predicate AllowedParses(fields: map<string, Value>) {
    "allowCredentials" in fields ==>
      && fields["allowCredentials"].List? && !fields["allowCredentials"].listKind.OtherList?
      && forall i :: 0 <= i < |fields["allowCredentials"].items| ==> fields["allowCredentials"].items[i].Text?
  }

  function PairsIn(fields: map<string, Value>): map<string, PrfValues>
    requires forall id :: id in fields ==> ParsePair(fields[id]).Some?
  {
    map id | id in fields :: ParsePair(fields[id]).value
  }

  function TextsIn(items: seq<Value>): seq<string>
    requires forall i :: 0 <= i < |items| ==> items[i].Text?
  {
    seq(|items|, i requires 0 <= i < |items| => items[i].text)
  }

  /** The typed input that an object describes, if its members have the right types. */
  function PrfFromFields(fields: map<string, Value>): Option<PrfInput> {
    if EvalParses(fields) && ByCredentialParses(fields) && AllowedParses(fields) then
      Some(PrfInput(
        if "eval" in fields then ParsePair(fields["eval"]) else None,
        if "evalByCredential" in fields then Some(PairsIn(fields["evalByCredential"].fields)) else None,
        if "allowCredentials" in fields then Some(TextsIn(fields["allowCredentials"].items)) else None))
    else None
  }

  function PrfOf(v: Value): Option<PrfInput> {
    match v
    case Prf(p) => if FirstsPresent(p) then Some(p) else None
    case Object(AnyMap, fields) => PrfFromFields(fields)
    case _ => None
  }

  /** A parsed prf input has every first part. */
  lemma PrfOfHasFirsts(v: Value)
    ensures PrfOf(v).Some? ==> FirstsPresent(PrfOf(v).value)
  {}

  method ParseByCredential(entries: map<string, Value>) returns (r: Option<map<string, PrfValues>>)
    ensures r.Some? <==> forall id :: id in entries ==> ParsePair(entries[id]).Some?
    ensures r.Some? ==> r.value == PairsIn(entries)
  {
    hide ParsePair;
    var out: map<string, PrfValues> := map[];
    var pending := entries.Keys;
    while pending != {}
      invariant pending <= entries.Keys
      invariant forall id :: id in entries ==> id in pending || id in out
      invariant forall id :: id in out ==> id in entries && id !in pending && ParsePair(entries[id]) == Some(out[id])
      decreases |pending|
    {
      var id :| id in pending;
      var pair := ParsePair(entries[id]);
      if pair.None? {
        return None;
      }
      out := out[id := pair.value];
      pending := pending - {id};
    }
    assert out == PairsIn(entries);
    return Some(out);
  }

  method ParseAllowed(items: seq<Value>) returns (r: Option<seq<string>>)
    ensures r.Some? <==> forall i :: 0 <= i < |items| ==> items[i].Text?
    ensures r.Some? ==> r.value == TextsIn(items)
  {
    var out: seq<string> := [];
    for i := 0 to |items|
      invariant |out| == i && forall j :: 0 <= j < i ==> items[j].Text? && out[j] == items[j].text
    {
      if !items[i].Text? {
        return None;
      }
      out := out + [items[i].text];
    }
    return Some(out);
  }

  method ParsePrfInput(v: Value) returns (r: Result<PrfInput, HandlerError>)
    ensures r.Ok? <==> PrfOf(v).Some?
    ensures r.Ok? ==> Some(r.value) == PrfOf(v)
  {
    hide ParsePair, PairsIn, TextsIn;
    if v.Prf? {
      return if FirstsPresent(v.prf) then Ok(v.prf) else Err(InvalidRequest);
    }
    if !v.Object? || !v.mapKind.AnyMap? {
      return Err(InvalidRequest);
    }
    var input := PrfInput(None, None, None);
    var fields := v.fields;
    if "eval" in fields {
      var eval := ParsePair(fields["eval"]);
      if eval.None? {
        return Err(InvalidRequest);
      }
      input := input.(eval := eval);
    }
    if "evalByCredential" in fields {
      var raw := fields["evalByCredential"];
      if !raw.Object? || !raw.mapKind.AnyMap? {
        return Err(InvalidRequest);
      }
      var entries := ParseByCredential(raw.fields);
      if entries.None? {
        return Err(InvalidRequest);
      }
      input := input.(evalByCredential := entries);
    }
    if "allowCredentials" in fields {
      var raw := fields["allowCredentials"];
      if !raw.List? || raw.listKind.OtherList? {
        return Err(InvalidRequest);
      }
      var allowed := ParseAllowed(raw.items);
      if allowed.None? {
        return Err(InvalidRequest);
      }
      input := input.(allowCredentials := allowed);
    }
    return Ok(input);
  }

  /** Ceremony rules for a parsed prf input. */
  predicate PrfAllowed(operation: Operation, p: PrfInput) {
    match operation
    case Registration => p.evalByCredential.None?
    case Authentication =>
      PairsOf(p) != map[] ==>
        && IdsOf(p) != []
        && forall id :: id in PairsOf(p) ==> id != "" && id in IdsOf(p) && Base64.Accept(id).Some?
  }

  /** The input the prf handler normalizes a value to, if it accepts the value. */
  function PrfAccepted(operation: Operation, v: Value): Option<PrfInput> {
    match PrfOf(v)
    case Some(p) => if PrfAllowed(operation, p) then Some(p) else None
    case None => None
  }

  /** The PRF values that apply to the credential which answered. */
  function SelectedPrf(p: PrfInput, credentialId: seq<byte>): Option<PrfValues> {
    if PairsOf(p) != map[] && credentialId == [] then None
    else if Base64.Encode(credentialId) in PairsOf(p) then Some(PairsOf(p)[Base64.Encode(credentialId)])
    else p.eval
  }

  /** A parsed prf client output: whether and with what values its members are present. */
  datatype PrfResult = PrfResult(enabled: Option<bool>, results: Option<PrfValues>)

  predicate ResultSized(r: PrfValues) {
    r.first.Some? && |r.first.value| == 32 && (r.second.Some? ==> |r.second.value| == 32)
  }

  /** As many results as inputs, and equal results for equal inputs. */
  predicate ResultMatches(input: PrfValues, result: PrfValues) {
    && input.second.Some? == result.second.Some?
    && (input.second.Some? && OrEmpty(input.first) == input.second.value ==>
        OrEmpty(result.first) == result.second.value)
  }

  /** Whether a prf output answers the input that was normalized at start. */
  predicate PrfOutputValid(operation: Operation, p: PrfInput, credentialId: seq<byte>, out: PrfResult) {
    && (out.results.Some? ==> ResultSized(out.results.value))
    && match operation
       case Registration =>
         && out.enabled.Some?
         && (out.results.Some? ==> out.enabled.value && p.eval.Some? && ResultMatches(p.eval.value, out.results.value))
       case Authentication =>
         && out.enabled.None?
         && (out.results.Some? ==>
               SelectedPrf(p, credentialId).Some?
                   && ResultMatches(SelectedPrf(p, credentialId).value, out.results.value))
  }

  // ----- largeBlob -----

  /** Which members the input named, and their values. */
  datatype LargeBlobRequest = LargeBlobRequest(input: LargeBlobInput, hasSupport: bool, hasRead: bool, hasWrite: bool)

  function LargeBlobOf(v: Value): Option<LargeBlobRequest> {
    if v.LargeBlob? then
      Some(LargeBlobRequest(v.blob, v.blob.support != "", v.blob.read.Some?, v.blob.write.Some?))
    else if !HasFields(v) then None
    else if "support" in v.fields && !v.fields["support"].Text? then None
    else if "read" in v.fields && !v.fields["read"].Bool? then None
    else if "write" in v.fields && !v.fields["write"].Bytes? then None
    else
      Some(LargeBlobRequest(
        LargeBlobInput(
          if "support" in v.fields then v.fields["support"].text else "",
          if "read" in v.fields then Some(v.fields["read"].flag) else None,
          if "write" in v.fields then v.fields["write"].data else None),
        "support" in v.fields, "read" in v.fields, "write" in v.fields))
  }

  predicate LargeBlobAllowed(operation: Operation, r: LargeBlobRequest) {
    && (r.hasSupport ==> r.input.support == "required" || r.input.support == "preferred")
    && match operation
       case Registration => !r.hasRead && !r.hasWrite
       case Authentication => !r.hasSupport && !(r.hasRead && r.hasWrite)
  }

  function LargeBlobAccepted(operation: Operation, v: Value): Option<LargeBlobInput> {
    match LargeBlobOf(v)
    case Some(r) => if LargeBlobAllowed(operation, r) then Some(r.input) else None
    case None => None
  }

  // ----- Storage keeps the handlers' decisions -----

  /** The value that storage gives back for an input's value. */
  function AfterStorage(v: Value): Value { Canon(Plain(v)) }

  function OrEmpty(data: Option<seq<byte>>): seq<byte> { if data.Some? then data.value else [] }

  function Filled(p: PrfValues): PrfValues { p.(first := Some(OrEmpty(p.first))) }

  lemma PairAfterStorage(p: PrfValues)
    ensures ParsePair(Canon(PrfValuesObject(p))) == Some(Filled(p))
  {
    var fields := Canon(PrfValuesObject(p)).fields;
    assert Canon(Bytes(p.first)) == Bytes(Some(OrEmpty(p.first)));
    assert p.second.Some? ==> Canon(Bytes(p.second)) == Bytes(p.second);
    assert fields["first"] == Bytes(Some(OrEmpty(p.first)));
    assert "second" in fields <==> p.second.Some?;
    if p.second.Some? { assert fields["second"] == Bytes(p.second); }
  }

  lemma AllowedAfterStorage(ids: seq<string>)
    ensures Canon(List(TextList, TextItems(ids))) == List(AnyList, TextItems(ids))
    ensures TextsIn(TextItems(ids)) == ids
  {
    assert Canon(List(TextList, TextItems(ids))).items == TextItems(ids);
  }

  lemma ByCredentialAfterStorage(pairs: map<string, PrfValues>)
    ensures Canon(ByCredentialObject(pairs)).Object? && Canon(ByCredentialObject(pairs)).mapKind.AnyMap?
    ensures Canon(ByCredentialObject(pairs)).fields.Keys == pairs.Keys
    ensures forall id :: id in pairs ==>
              ParsePair(Canon(ByCredentialObject(pairs)).fields[id]) == Some(Filled(pairs[id]))
  {
    hide ParsePair;
    var fields := Canon(ByCredentialObject(pairs)).fields;
    forall id | id in pairs ensures ParsePair(fields[id]) == Some(Filled(pairs[id])) { PairAfterStorage(pairs[id]); }
    assert fields.Keys == pairs.Keys;
  }

  /** A restored typed prf input parses to itself with absent first parts read as empty ones. */
  function FilledPrf(p: PrfInput): PrfInput {
    PrfInput(
      if p.eval.Some? then Some(Filled(p.eval.value)) else None,
      if p.evalByCredential.Some? then
        Some(map id | id in p.evalByCredential.value :: Filled(p.evalByCredential.value[id])) else None,
      p.allowCredentials)
  }

  lemma PrfFieldsAfterStorage(p: PrfInput)
    ensures AfterStorage(Prf(p)).Object? && AfterStorage(Prf(p)).mapKind.AnyMap?
    ensures var fields := AfterStorage(Prf(p)).fields;
            && ("eval" in fields <==> p.eval.Some?)
            && ("evalByCredential" in fields <==> p.evalByCredential.Some?)
            && ("allowCredentials" in fields <==> p.allowCredentials.Some?)
            && (p.eval.Some? ==> fields["eval"] == Canon(PrfValuesObject(p.eval.value)))
            && (p.evalByCredential.Some? ==>
                fields["evalByCredential"] == Canon(ByCredentialObject(p.evalByCredential.value)))
            && (p.allowCredentials.Some? ==>
                  fields["allowCredentials"] == Canon(List(TextList, TextItems(p.allowCredentials.value))))
  {
    hide PrfValuesObject, ByCredentialObject, TextItems;
    assert Plain(Prf(p)) == PrfObject(p);
  }

  lemma PrfAfterStorage(p: PrfInput)
    ensures PrfOf(AfterStorage(Prf(p))) == Some(FilledPrf(p))
  {
    PrfFieldsAfterStorage(p);
    hide ParsePair, AfterStorage, Canon, Filled;
    var v := AfterStorage(Prf(p));
    if p.eval.Some? { PairAfterStorage(p.eval.value); }
    if p.evalByCredential.Some? {
      ByCredentialAfterStorage(p.evalByCredential.value);
      assert PairsIn(v.fields["evalByCredential"].fields) == FilledPrf(p).evalByCredential.value;
    }
    if p.allowCredentials.Some? { AllowedAfterStorage(p.allowCredentials.value); }
    assert PrfOf(v) == PrfFromFields(v.fields);
  }

  /** The prf handler parses a restored input as it parsed the live one exactly when no first part is nil. */
  lemma PrfSurvivesStorage(p: PrfInput)
    ensures PrfOf(AfterStorage(Prf(p))) == PrfOf(Prf(p)) <==> FirstsPresent(p)
  {
    PrfAfterStorage(p);
    hide PrfFromFields, AfterStorage;
    if FirstsPresent(p) && p.evalByCredential.Some? {
      assert FilledPrf(p).evalByCredential.value == p.evalByCredential.value;
    }
  }

  /** A nil first value is refused when live and read as an empty one after storage. */
  lemma NilFirstIsRevived()
    ensures var p := PrfInput(Some(PrfValues(None, None)), None, None);
            PrfOf(Prf(p)).None? && PrfOf(AfterStorage(Prf(p)))
                == Some(PrfInput(Some(PrfValues(Some([]), None)), None, None))
  {
    PrfAfterStorage(PrfInput(Some(PrfValues(None, None)), None, None));
  }

  /** Live and restored prf inputs get the same decision, normalized input, selection and verdict on outputs. */
  lemma PrfDecisionsSurviveStorage(p: PrfInput, operation: Operation, credentialId: seq<byte>, out: PrfResult)
    requires FirstsPresent(p)
    ensures PrfAccepted(operation, AfterStorage(Prf(p))) == PrfAccepted(operation, Prf(p))
    ensures PrfOf(AfterStorage(Prf(p))).Some?
    ensures SelectedPrf(PrfOf(AfterStorage(Prf(p))).value, credentialId) == SelectedPrf(p, credentialId)
    ensures PrfOutputValid(operation, PrfOf(AfterStorage(Prf(p))).value, credentialId, out)
              == PrfOutputValid(operation, p, credentialId, out)
  {
    hide AfterStorage, PrfFromFields, PrfAllowed, SelectedPrf, PrfOutputValid;
    PrfSurvivesStorage(p);
  }

  /** Absent, empty and false members of a largeBlob input stay distinct through storage. */
  lemma LargeBlobSurvivesStorage(l: LargeBlobInput)
    ensures LargeBlobOf(AfterStorage(LargeBlob(l))) == LargeBlobOf(LargeBlob(l))
  {
    var fields := AfterStorage(LargeBlob(l)).fields;
    assert Plain(LargeBlob(l)) == LargeBlobObject(l);
    assert Canon(Text(l.support)) == Text(l.support);
    assert l.read.Some? ==> Canon(Bool(l.read.value)) == Bool(l.read.value);
    assert l.write.Some? ==> Canon(Bytes(l.write)) == Bytes(l.write);
    assert "support" in fields <==> l.support != "";
    assert "read" in fields <==> l.read.Some?;
    assert "write" in fields <==> l.write.Some?;
  }

  lemma InputBehindBoundary(v: Value)
    ensures InputValue(Restored(v)) == v
  {}

  lemma SimpleInputsKept(input: Input)
    requires input.BoolInput? || input.TextInput?
    ensures Restored(AfterStorage(InputValue(input))) == input
  {}

  /** What a ceremony reads back for an input it stored. */
  lemma RestoredInput(values: map<string, Input>, id: string)
    requires Writable(values) && id in values
    ensures id in DecodedInputs(EncodedInputs(values))
    ensures InputValue(DecodedInputs(EncodedInputs(values))[id]) == AfterStorage(InputValue(values[id]))
    ensures values[id].BoolInput? || values[id].TextInput? ==> DecodedInputs(EncodedInputs(values))[id] == values[id]
  {
    hide Writable, EncodedInputs, DecodedInputs, Restored, InputValue, Plain, Canon;
    WrittenReadsBack(values);
    InputBehindBoundary(AfterStorage(InputValue(values[id])));
    if values[id].BoolInput? || values[id].TextInput? { SimpleInputsKept(values[id]); }
  }
}
