// The prf and largeBlob handlers in terms of raw values: which values they read and as what, which inputs each
// ceremony allows, which prf values a credential selects, and which outputs answer them.
module HandlerFacts {
  import opened Base
  import opened Values
  import opened InputHandlers
  import Base64

  // ----- Reading prf inputs -----

  /** A pair is read from a typed pair with a first value, or from a map with data under "first" and, if present, under
      "second". */
  lemma PairReadExactly(v: Value, p: PrfValues)
    ensures ParsePair(v) == Some(p) <==>
              && p.first.Some?
              && (|| v == PrfPair(p)
                  || (&& v.Object? && v.mapKind in {AnyMap, TextMap, BoolMap}
                      && "first" in v.fields && v.fields["first"] == Bytes(p.first)
                      && if "second" in v.fields then v.fields["second"] == Bytes(p.second) else p.second.None?))
  {}

  /** The members of an object that describe a prf input. */
  ghost predicate Describes(fields: map<string, Value>, p: PrfInput) {
    && (if "eval" in fields then p.eval.Some? && ParsePair(fields["eval"]) == p.eval else p.eval.None?)
    && (if "evalByCredential" in fields
        then && p.evalByCredential.Some? && fields["evalByCredential"].Object?
             && fields["evalByCredential"].mapKind == AnyMap
             && fields["evalByCredential"].fields.Keys == p.evalByCredential.value.Keys
             && forall id :: id in p.evalByCredential.value ==>
                  ParsePair(fields["evalByCredential"].fields[id]) == Some(p.evalByCredential.value[id])
        else p.evalByCredential.None?)
    && (if "allowCredentials" in fields
        then && p.allowCredentials.Some? && fields["allowCredentials"].List?
             && fields["allowCredentials"].listKind in {AnyList, TextList}
             && |fields["allowCredentials"].items| == |p.allowCredentials.value|
             && forall i :: 0 <= i < |p.allowCredentials.value| ==>
                  fields["allowCredentials"].items[i] == Text(p.allowCredentials.value[i])
        else p.allowCredentials.None?)
  }

  lemma FieldsReadExactly(fields: map<string, Value>, p: PrfInput)
    ensures PrfFromFields(fields) == Some(p) <==> Describes(fields, p)
  {
    hide ParsePair;
    if PrfFromFields(fields) == Some(p) { FieldsDescribe(fields, p); }
    if Describes(fields, p) { DescribedIsRead(fields, p); }
  }

  lemma FieldsDescribe(fields: map<string, Value>, p: PrfInput)
    requires PrfFromFields(fields) == Some(p)
    ensures Describes(fields, p)
  {
    hide ParsePair;
    if "allowCredentials" in fields {
      var items := fields["allowCredentials"].items;
      forall i | 0 <= i < |items| ensures items[i] == Text(p.allowCredentials.value[i]) {}
    }
  }

  lemma DescribedIsRead(fields: map<string, Value>, p: PrfInput)
    requires Describes(fields, p)
    ensures PrfFromFields(fields) == Some(p)
  {
    hide ParsePair;
    if "allowCredentials" in fields {
      var items := fields["allowCredentials"].items;
      forall i | 0 <= i < |items| ensures items[i].Text? && items[i].text == p.allowCredentials.value[i] {}
      assert TextsIn(items) == p.allowCredentials.value;
    }
    if "evalByCredential" in fields {
      assert PairsIn(fields["evalByCredential"].fields) == p.evalByCredential.value;
    }
  }

  /** A prf input is read from a typed input all of whose pairs have a first value, or from an object that describes
      it. */
  lemma PrfReadExactly(v: Value, p: PrfInput)
    ensures PrfOf(v) == Some(p) <==>
              || (&& v == Prf(p) && (p.eval.Some? ==> p.eval.value.first.Some?)
                  && (p.evalByCredential.Some? ==> forall id :: id in p.evalByCredential.value ==>
                        p.evalByCredential.value[id].first.Some?))
              || (v.Object? && v.mapKind == AnyMap && Describes(v.fields, p))
  {
    hide PrfFromFields, Describes;
    if v.Object? { FieldsReadExactly(v.fields, p); }
  }

  // ----- Which prf inputs and outputs are allowed -----

  /** No per-credential values at registration; at authentication only for allowed credentials, each named by the text
      of an id that is not empty. */
  lemma PrfAllowedExactly(operation: Operation, p: PrfInput)
    ensures operation == Registration ==> (PrfAllowed(operation, p) <==> p.evalByCredential == None)
    ensures operation == Authentication ==>
              (PrfAllowed(operation, p) <==>
                 (p.evalByCredential.Some? ==> forall id :: id in p.evalByCredential.value ==>
                    && p.allowCredentials.Some? && id in p.allowCredentials.value
                    && exists c :: c != [] && Base64.Accept(id) == Some(c)))
  {
    hide Base64.Accept;
    forall id: string
      ensures id != "" && Base64.Accept(id).Some? <==> exists c :: c != [] && Base64.Accept(id) == Some(c)
    {
      NamedCredential(id);
    }
    if PairsOf(p) != map[] {
      var id :| id in PairsOf(p);
    }
  }

  lemma NamedCredential(id: string)
    ensures id != "" && Base64.Accept(id).Some? <==> exists c :: c != [] && Base64.Accept(id) == Some(c)
  {
    if Base64.Accept(id).Some? {
      var c := Base64.Accept(id).value;
      Base64.AcceptExactlyEncodings(id, c);
      assert c == [] ==> Base64.Encode(c) == "";
      assert c != [] ==> |Base64.Encode(c)| > 0;
    }
  }

  /** Every named value is selected by the credential whose id its name decodes to, and by no other; a credential
      without one gets the common values. Without its id no selection is made among named values. */
  lemma SelectionExactly(p: PrfInput, credentialId: seq<byte>)
    requires PrfAllowed(Authentication, p)
    ensures forall id :: id in PairsOf(p) && Base64.Accept(id) == Some(credentialId) ==>
              SelectedPrf(p, credentialId) == Some(PairsOf(p)[id])
    ensures (forall id :: id in PairsOf(p) ==> Base64.Accept(id) != Some(credentialId)) ==>
              SelectedPrf(p, credentialId) == if credentialId == [] && PairsOf(p) != map[] then None else p.eval
  {
    hide Base64.Accept, Base64.Encode;
    forall id | id in PairsOf(p)
      ensures Base64.Accept(id) == Some(credentialId) <==> Base64.Encode(credentialId) == id
      ensures Base64.Accept(id) == Some(credentialId) ==> credentialId != []
    {
      Base64.AcceptExactlyEncodings(id, credentialId);
      NamedCredential(id);
    }
  }

  /** Registration answers say whether prf is enabled, and give results only if it is and values were sent. */
  lemma RegistrationAnswerExactly(p: PrfInput, credentialId: seq<byte>, out: PrfResult)
    ensures PrfOutputValid(Registration, p, credentialId, out) <==>
              match out
              case PrfResult(None, _) => false
              case PrfResult(Some(_), None) => true
              case PrfResult(Some(enabled), Some(result)) => enabled && p.eval.Some? && Answers(p.eval.value, result)
  {}

  /** Authentication answers never say whether prf is enabled, and give results only for values the credential
      selects. */
  lemma AuthenticationAnswerExactly(p: PrfInput, credentialId: seq<byte>, out: PrfResult)
    ensures PrfOutputValid(Authentication, p, credentialId, out) <==>
              match out
              case PrfResult(Some(_), _) => false
              case PrfResult(None, None) => true
              case PrfResult(None, Some(result)) =>
                SelectedPrf(p, credentialId).Some? && Answers(SelectedPrf(p, credentialId).value, result)
  {
    hide SelectedPrf;
  }

  /** Results of 32 octets, as many as values, and equal for equal values. */
  predicate Answers(values: PrfValues, result: PrfValues) {
    match (result.first, result.second, values.second)
    case (Some(f), None, None) => |f| == 32
    case (Some(f), Some(g), Some(second)) =>
      |f| == 32 && |g| == 32 && (second == (if values.first.Some? then values.first.value else []) ==> f == g)
    case _ => false
  }

  // ----- largeBlob -----

  /** A largeBlob request is read from a typed input, whose empty support is no support, or from the named members of a
      map, each of its own type. */
  lemma LargeBlobReadExactly(v: Value, r: LargeBlobRequest)
    ensures LargeBlobOf(v) == Some(r) <==>
              || (&& v == LargeBlob(r.input) && (r.hasSupport <==> r.input.support != "")
                  && (r.hasRead <==> r.input.read.Some?) && (r.hasWrite <==> r.input.write.Some?))
              || (&& v.Object? && v.mapKind in {AnyMap, TextMap, BoolMap}
                  && (r.hasSupport <==> "support" in v.fields) && (r.hasRead <==> "read" in v.fields)
                  && (r.hasWrite <==> "write" in v.fields)
                  && (if r.hasSupport then v.fields["support"] == Text(r.input.support) else r.input.support == "")
                  && (if r.hasRead then r.input.read.Some? && v.fields["read"] == Bool(r.input.read.value)
                      else r.input.read.None?)
                  && (if r.hasWrite then v.fields["write"] == Bytes(r.input.write) else r.input.write.None?))
  {}

  lemma LargeBlobAllowedExactly(operation: Operation, r: LargeBlobRequest)
    ensures LargeBlobAllowed(operation, r) <==>
              match operation
              case Registration =>
                !r.hasRead && !r.hasWrite && (r.hasSupport ==> r.input.support in {"required", "preferred"})
              case Authentication => !r.hasSupport && !(r.hasRead && r.hasWrite)
  {}

  /** A handler normalizes exactly the values that it reads as an allowed input, and to that input. */
  lemma NormalizedExactly(operation: Operation, v: Value)
    ensures forall p :: PrfAccepted(operation, v) == Some(p) <==> PrfOf(v) == Some(p) && PrfAllowed(operation, p)
    ensures forall l :: LargeBlobAccepted(operation, v) == Some(l) <==>
              exists r :: LargeBlobOf(v) == Some(r) && LargeBlobAllowed(operation, r) && r.input == l
  {
    hide PrfOf, PrfAllowed, LargeBlobOf, LargeBlobAllowed;
  }
}
