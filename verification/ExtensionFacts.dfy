// Bindings, results and handler decisions of extensions in terms of the raw inputs and outputs.
module ExtensionFacts {
  import opened Base
  import opened Values
  import opened Identifiers
  import opened InputHandlers
  import opened Extensions
  import opened ExtensionResults
  import opened Ceremonies
  import Base64
  import CloneWalk

  // ----- Bindings -----

  /** Every requested identifier is bound exactly as the registry in use holds it. */
  ghost predicate BoundAsRegistered(requested: Requested, registry: Option<Registry>) {
    forall id, revision :: id in requested.inputs ==>
      (Binding(id, revision) in requested.bindings <==>
         registry.Some? && id in registry.value && registry.value[id].revision == revision)
  }

  lemma BindingsByTable(requested: Requested, registry: Option<Registry>)
    requires SortedBindings(requested.bindings)
    ensures BoundAsRegistered(requested, registry) <==> BindingsAgree(requested, registry)
  {
    hide Before, SortedBindings;
    forall id, revision
      ensures RecordedRevision(requested.bindings, id) == Some(revision)
          <==> Binding(id, revision) in requested.bindings
    {
      RecordedIffBound(requested.bindings, id, revision);
    }
    hide RecordedRevision;
    if BoundAsRegistered(requested, registry) {
      forall id | id in requested.inputs
        ensures RecordedRevision(requested.bindings, id) == CurrentRevision(registry, id)
      {
        var recorded := RecordedRevision(requested.bindings, id);
        if recorded.Some? { assert Binding(id, recorded.value) in requested.bindings; }
        if CurrentRevision(registry, id).Some? {
          assert Binding(id, CurrentRevision(registry, id).value) in requested.bindings;
        }
      }
    }
  }

  ghost predicate RemoteAgreement(requested: Requested, clientDataJson: string) {
    "remoteClientDataJSON" in requested.inputs ==>
      (exists revision :: Binding("remoteClientDataJSON", revision) in requested.bindings) ==>
        requested.inputs["remoteClientDataJSON"] == TextInput(clientDataJson)
  }

  lemma RemoteByTable(requested: Requested, clientDataJson: string)
    ensures RemoteBound(requested, clientDataJson) <==> RemoteAgreement(requested, clientDataJson)
  {
    var id := "remoteClientDataJSON";
    if i :| 0 <= i < |requested.bindings| && requested.bindings[i].id == id {
      assert Binding(id, requested.bindings[i].revision) in requested.bindings;
    }
  }

  // ----- Results -----

  /** At most 64 identifiers, requested or with an output, each well formed and with a result. */
  ghost predicate EveryIdHasResult(w: Work) {
    var ids := w.requested.Keys + w.client.Keys + w.authenticator.Keys;
    && |w.requested| <= 64 && |w.client| <= 64 && |w.authenticator| <= 64 && |ids| <= 64
    && forall id :: id in ids ==> ValidIdentifier(id) && ResultOf(w, id).Some?
  }

  lemma WorkByTable(w: Work)
    ensures EveryIdHasResult(w) <==> WithinWork(w) && forall id :: id in WorkIds(w) ==> ResultOf(w, id).Some?
  {
    hide ResultOf, ValidIdentifier;
    assert WorkIds(w) == w.requested.Keys + w.client.Keys + w.authenticator.Keys;
  }

  /** An identifier gets no result exactly when its output is against the policy, its input is refused or does not copy,
      an output does not copy, or, for a requested registered identifier, its handler refuses the input or the outputs
      or returns a value that does not copy. */
  lemma RefusedExactly(w: Work, id: string)
    ensures ResultOf(w, id).None? <==>
              || (id in w.client.Keys + w.authenticator.Keys && w.rejectUnknown
                  && !(w.registry.Some? && id in w.registry.value))
              || (id in w.client.Keys + w.authenticator.Keys && w.rejectUnrequested && id !in w.requested)
              || (id in w.requested && w.transform(id, w.requested[id]).None?)
              || (id in w.requested && w.transform(id, w.requested[id]).Some?
                  && !Copies(w.transform(id, w.requested[id]).value))
              || (id in w.authenticator && !CloneWalk.CloneAccepts(w.authenticator[id]))
              || (if id in w.requested && w.registry.Some? && id in w.registry.value
                  then HandlerRefuses(w, id) else id in w.client && !CloneWalk.CloneAccepts(w.client[id]))
  {
    hide CloneWalk.CloneAccepts;
  }

  /** The handler of a requested identifier refuses its input, its outputs, or returns too much. */
  ghost predicate HandlerRefuses(w: Work, id: string)
    requires id in w.requested && w.registry.Some? && id in w.registry.value
  {
    var handler, input := w.registry.value[id], w.transform(id, w.requested[id]);
    input.Some? ==>
      var normalized := handler.validate(w.operation, InputValue(input.value));
      normalized.Some? ==>
        var verdict := handler.verify(OutputRequest(
          w.operation, true, w.credentialId, normalized.value,
          if id in w.client then Some(w.client[id]) else None,
          if id in w.authenticator then Some(w.authenticator[id]) else None));
        verdict.Some? ==> !CloneWalk.CloneAccepts(verdict.value.output)
  }

  /** The result of a requested registered identifier is its handler's verdict under the handler's revision; any other
      result keeps the raw values. */
  lemma ResultExactly(w: Work, id: string)
    requires ResultOf(w, id).Some?
    ensures ResultOf(w, id).value.id == id
    ensures ResultOf(w, id).value.Verified? <==> id in w.requested && w.registry.Some? && id in w.registry.value
    ensures ResultOf(w, id).value.Verified? ==> ResultOf(w, id).value.revision == w.registry.value[id].revision
    ensures ResultOf(w, id).value.Preserved? ==>
              && ResultOf(w, id).value.requested == (id in w.requested)
              && ResultOf(w, id).value.clientOutput == (if id in w.client then Some(w.client[id]) else None)
              && ResultOf(w, id).value.authenticatorOutput
                   == (if id in w.authenticator then Some(w.authenticator[id]) else None)
  {
    hide CloneWalk.CloneAccepts;
  }

  // ----- Start -----

  /** Start refuses an input exactly when its identifier is malformed, it does not copy, the ceremony's transform
      refuses it, it is reserved or unknown without a handler where that is not allowed, or its handler refuses it,
      its transformed value does not copy, or the normalized value does not. */
  lemma PreparationRefusedExactly(operation: Operation, registry: Registry, rejectUnknown: bool, transform: Transform,
                                  id: string, input: Input)
    ensures Prepared(operation, registry, rejectUnknown, transform, id, input).None? <==>
              || !ValidIdentifier(id) || !Copies(input) || transform(id, input).None?
              || (id !in registry && (rejectUnknown || BuiltInRevision(id).Some?))
              || (id in registry && transform(id, input).Some?
                  && var v := transform(id, input).value;
                     || !Copies(v)
                     || registry[id].validate(operation, InputValue(v)).None?
                     || !CloneWalk.CloneAccepts(registry[id].validate(operation, InputValue(v)).value))
  {
    hide ValidIdentifier, BuiltInRevision, CloneWalk.CloneAccepts;
  }

  /** The prf input of an authentication carries the ceremony's credentials, as texts that decode to their ids; every
      other input stays as it is. */
  lemma AttachedExactly(allow: seq<Descriptor>, id: string, input: Input)
    ensures id != "prf" ==> AttachAllowed(allow)(id, input) == Some(input)
    ensures id == "prf" && PrfOf(InputValue(input)).None? ==> AttachAllowed(allow)(id, input).None?
    ensures id == "prf" && PrfOf(InputValue(input)).Some? ==>
              var given := PrfOf(InputValue(input)).value;
              && AttachAllowed(allow)(id, input).Some? && AttachAllowed(allow)(id, input).value.PrfIn?
              && var p := AttachAllowed(allow)(id, input).value.prf;
                 && p.eval == given.eval && p.evalByCredential == given.evalByCredential
                 && (p.allowCredentials.None? <==> allow == [])
                 && (allow != [] ==>
                       && |p.allowCredentials.value| == |allow|
                       && forall i :: 0 <= i < |allow| ==>
                            Base64.Accept(p.allowCredentials.value[i]) == Some(allow[i].id))
  {
    hide PrfOf, Base64.Accept, Base64.Encode;
    forall i | 0 <= i < |allow| ensures Base64.Accept(AllowedTexts(allow)[i]) == Some(allow[i].id) {
      Base64.AcceptExactlyEncodings(Base64.Encode(allow[i].id), allow[i].id);
    }
  }
}
