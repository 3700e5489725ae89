# WebAuthn relying party: verification project

A Dafny model of a server-side WebAuthn relying party (W3C WebAuthn Level 3, sections 7.1 and 7.2), its storage
adapters and its example application, with proofs about whole runs, round trips and exact parsers.
`dafny verify dfyconfig.toml` checks the whole project.

The main results:

- **Logins and enrolments** (`Stores`, `Logins`, `LoginHistory`, `LoginTraces`, `CeremonyUse`, `SessionSaves`,
  `Application`, `LoginExample`). Every store call is one atomic step, every request a thread, and a run is any
  sequence of steps of any threads. Each run has the rows and sessions of a serial run in which every login verifies
  and updates the current row in one action (`Logins.RunsAreSerializable`). From the serial runs follow the counter
  history and the row invariants of all runs (`LoginHistory.RowsOfEveryRun`). Every session comes from one unexpired
  ceremony of its own browser session and one committed update (`LoginTraces.SessionProvenance`), no ceremony is lost,
  duplicated or used twice (`CeremonyUse.CeremoniesOfEveryRun`), and different sessions rest on different saves
  (`SessionSaves.SessionsUseDifferentSaves`). The request handlers, run alone, perform exactly those steps
  (`Application`), and two logins that race for one credential open one session (`LoginExample`).
- **The storage codec and its budgets** (`Values`, `CloneWalk`, `EncodedValues`, `ValueCodec`, `StoredInputs`,
  `Envelopes`, `InputHandlers`, `StoredCeremonies`, `StartedCeremonies`). The greedy walks accept exactly the trees
  whose total size and depth fit, in whatever order maps are visited. Encoding then decoding gives the canonical tree.
  What marshals into a permitted envelope unmarshals, although the decoder charges base64 lengths; without that limit
  it need not, with a witness. The prf and largeBlob handlers decide about restored inputs as about live ones, and
  finish comes to the same verdict about a restored state as about the live one
  (`StoredCeremonies.FinishSurvivesStorage`); start, storage and finish compose
  (`StartedCeremonies.AuthenticationThroughStorage`).
- **Extension bindings** (`Identifiers`, `Extensions`, `ExtensionResults`, `Ceremonies`, `RelyingParty`). Start
  establishes what stored-state validation demands; finish accepts the bindings exactly when its registry agrees with
  the start registry on every requested identifier; results are complete, sorted, and accepted only by handlers.
- **Assertions and registrations** (`AuthenticatorData`, `Credentials`, `Authentication`, `Registration`,
  `LoginChecks`, `EnrolmentChecks`). What acceptance means, that finish reports the first failure of an ordered table
  of checks over raw fields, and that each returned update applies to its own snapshot and yields the returned record.
- **Exact parsers and arithmetic** (`Base64`, `AuthenticatorData`, `Tpm`, `Der`, `Rsa`). Each parser accepts exactly
  what its printer produces from in-range fields; trial division accepts exactly the odd primes; the RSA bit count is
  exact.
- **Raw facts** (`CarriedData`, `StateFacts`, `StoreFacts`, `ExtensionFacts`, `HandlerFacts`, `HandlerAnswers`,
  `TpmFacts`). The rules that the other results name, each stated exactly over raw fields, octets and literal limits.
- **Composition and indexes** (`Policies`, `Compound`, `CredentialIndex`, `IndexRuns`). Flattening of policy trees,
  their boolean meaning, the compound threshold, and two indexes that share mutable records; over every run of that
  store, an in-place update does exactly what the checked update does (`IndexRuns.EveryUpdateIsApplyTo`).

Two of the properties hold under an exact condition only. Reading back what the encoder wrote needs the envelope limit
(`StoredInputs.WrittenReadsBack`, `StoredInputs.WritableButNotReadable`). A typed prf input parses the same after storage
if and only if no first value is a nil slice (`InputHandlers.PrfSurvivesStorage`, `InputHandlers.NilFirstIsRevived`).

Conventions: a text is a sequence of characters that stand for octets; an empty octet string stands for an unset
browser member; times are nanoseconds with the zero time at 0; hashing, signatures, CBOR, client data JSON and
attestation statements are given functions, arbitrary in every statement.

## Model

| member | source | states |
|---|---|---|
| `Base64.AcceptExactlyEncodings` | storage/json/json.go:550-561 | the accepted texts are exactly the unpadded base64url encodings, each of one octet string |
| `Base64.RecheckRefusesLineBreaks` | storage/json/json.go:554-561 | among texts the strict decoder reads, the re-encoding check refuses exactly those with a line break |
| `Base64.DigitsInOrder` | storage/json/json.go:550-561 | the digits are those of the URL and filename safe alphabet of section 5 of RFC 4648 |
| `Base64.ShortForms` | storage/json/json.go:550-561 | one and two final octets are encoded without padding |
| `Values.PlainOfNormalize` | storage/json/value.go:111-154 | replacing typed inputs one level at a time reaches the same plain tree as replacing them everywhere |
| `Values.FieldsSizeAnyOrder` | extension/value.go:157-183 | the charge of a map does not depend on the order its entries are visited in |
| `Values.CanonIdempotent` | storage/json/value.go:156-218 | the canonical form (wide numbers, plain lists and maps) is its own canonical form |
| `CloneWalk.CloneBudget.Consume` | extension/value.go:64-71 | charges both counters or neither, never past a limit, and says which |
| `CloneWalk.PrfDirectCost` | extension/value.go:185-234 | the accumulated charge of a prf input is its size over all entries, in any order |
| `CloneWalk.DirectCloneCost` | extension/value.go:185-234 | a leaf is charged its whole size, a list or map one node |
| `CloneWalk.CloneValueAt` | extension/value.go:73-138 | succeeds exactly when type, depth and total nodes and bytes fit; then returns the input and grew the budget by exactly its size |
| `CloneWalk.CloneSequence` | extension/value.go:140-155 | the same for the items of a list |
| `CloneWalk.CloneMap` | extension/value.go:157-183 | the same for the entries of a map, whatever order they are visited in |
| `CloneWalk.CloneEntry` | extension/value.go:164-180 | one map turn: the key is charged, then the value is copied one level deeper |
| `CloneWalk.CloneValue` | extension/value.go:36-38 | the package-default copy accepts exactly the trees within 32 levels, 4096 nodes and 2^20 octets |
| `CloneWalk.CloneValueWithLimits` | extension/value.go:42-62 | zero limits stand for defaults, negative ones are refused, otherwise the whole tree must fit |
| `CarriedData.SizesAreParts` | extension/value.go:157-234 | a value is charged one node for each of its parts and the octets of every text, key, credential id, prf value and written blob it carries, typed inputs included |
| `CarriedData.CopyAcceptsExactly` | extension/value.go:36-138 | the default copy accepts exactly the values with no node of unknown type or below 32 levels, at most 4096 parts and at most 2^20 carried octets |
| `EncodedValues.ValidateEncodedValue` | storage/json/value.go:310-351 | passes exactly the nodes with a known tag and precisely the one field that tag allows |
| `EncodedValues.DecodedOfEncoded` | storage/json/value.go:156-297 | decoding the encoding of a storable tree gives its canonical form, and every node is readable |
| `EncodedValues.EncodedOfDecoded` | storage/json/value.go:238-297 | every readable stored tree is the encoding of what it decodes to |
| `EncodedValues.StoredAtLeast` | storage/json/value.go:220-308 | the decoder's charge is never below the encoder's for the same tree, and equal in nodes |
| `CarriedData.LeafLayout` | storage/json/value.go:165-187 | the stored node of each leaf, field by field |
| `CarriedData.CanonByPath` | storage/json/value.go:156-297 | storage keeps every node in its place with its content; only number widths, element types and nil data are lost |
| `CarriedData.ReadableExactly` | storage/json/value.go:238-351 | the decoder reads exactly the trees that some supported canonical value is stored as |
| `CarriedData.StoredSizesAreParts` | storage/json/value.go:238-308 | a stored tree is charged one node for each part and the length of every key, text and base64 text |
| `ValueCodec.ValueBudget.Consume` | storage/json/value.go:33-40 | charges both counters or neither, never past a limit |
| `ValueCodec.EncodeValueAt` | storage/json/value.go:156-218 | succeeds exactly when the plain tree is storable and fits; result and budget growth are exact |
| `ValueCodec.EncodeMap` | storage/json/value.go:198-214 | the same for map entries in any order |
| `ValueCodec.EncodeScalar` | storage/json/value.go:165-187 | a leaf gets its tag and value; non-finite floats and unknown types are refused |
| `ValueCodec.EncodeSequence` | storage/json/value.go:188-197 | the items of a list, normalized and encoded one level deeper |
| `ValueCodec.DecodeValueAt` | storage/json/value.go:238-297 | succeeds exactly when the stored tree is readable and its base64 sizes fit; result and budget growth are exact |
| `ValueCodec.DecodeMap` | storage/json/value.go:281-293 | the same for stored map members in any order |
| `ValueCodec.DecodeScalar` | storage/json/value.go:247-270 | the value of a leaf; octets must be strict base64url |
| `ValueCodec.DecodeSequence` | storage/json/value.go:271-280 | the elements of a stored list, decoded one level deeper |
| `StoredInputs.EncodeExtensionValues` | storage/json/value.go:54-81 | writes a set of inputs exactly when each is supported and together they fit; nil stays nil |
| `StoredInputs.EncodeInput` | storage/json/value.go:63-78 | one input: valid identifier, copied, normalized, charged and encoded |
| `StoredInputs.EncodeEntries` | storage/json/value.go:58-81 | all inputs under one budget, in any order |
| `StoredInputs.DecodeExtensionValues` | storage/json/value.go:83-109 | reads stored inputs exactly when each is readable and together they fit; nil stays nil |
| `StoredInputs.DecodeInput` | storage/json/value.go:92-107 | one stored input: valid identifier, charged, decoded and put behind its typed boundary |
| `StoredInputs.DecodeEntries` | storage/json/value.go:87-109 | all stored inputs under one budget, in any order |
| `StoredInputs.CopyAfterDecodeFits` | extension/input.go:61-72 | the copy made after decoding never exceeds the copy's own budget |
| `StoredInputs.WrittenReadsBack` | storage/json/value.go:54-109 | written inputs read back if and only if their stored octets fit, and then as the canonical inputs |
| `CarriedData.WritableExactly` | storage/json/value.go:54-81 | inputs can be written exactly within 64 entries, 32 levels, 4096 parts and 2^20 octets, all of supported types |
| `CarriedData.ReadableInputsExactly` | storage/json/value.go:83-109 | stored inputs can be read exactly within 64 entries, 32 levels, 4096 parts and 2^20 octets |
| `StoredInputs.MarshalImpliesUnmarshal` | storage/json/json.go:359-397 | inputs marshalled into an envelope of permitted size are always unmarshalled |
| `StoredInputs.WritableButNotReadable` | storage/json/value.go:220-308 | an input of 800000 octets is writable and not readable when no envelope limit applies |
| `Envelopes.UnmarshalEnvelope` | storage/json/json.go:370-397 | accepts exactly the texts within the limit that parse to the current version, the expected kind and its payload alone |
| `Envelopes.UnmarshalsExactly` | storage/json/json.go:370-397 | for each stored kind: 1 to 2^20 octets that parse to version 1, that kind and that payload alone, and nothing else |
| `Envelopes.OtherEnvelopesAreRefused` | storage/json/json.go:378-395 | an envelope of another version, of another kind or with another payload never unmarshals |
| `Envelopes.OnePayload` | storage/json/json.go:384-395 | a well-formed envelope carries the payload of its kind and neither of the others |
| `Envelopes.MarshalledUnmarshals` | storage/json/json.go:359-397 | what was marshalled for a kind unmarshals to the same envelope for that kind and for no other |
| `Envelopes.MarshalledInputsReadBack` | storage/json/json.go:115-256 | the inputs of a registration or authentication state that marshals are unmarshalled, as that kind only, and read back in canonical form |
| `Envelopes.SomeLayerMarshals` | storage/json/json.go:359-368 | for all writable inputs whose strings fit an envelope, some text layer meets what the previous row asks of it |
| `InputHandlers.ParsePrfInput` | extension/level3.go:155-221 | returns the typed input that the members describe, and refuses exactly the ill-typed ones |
| `InputHandlers.ParseByCredential` | extension/level3.go:188-201 | every per-credential value parses, or the whole map is refused |
| `InputHandlers.ParseAllowed` | extension/level3.go:202-217 | the allowed credentials are texts, in order |
| `InputHandlers.PrfSurvivesStorage` | extension/level3.go:155-221 | a stored typed prf input parses as the live one if and only if no first value is nil |
| `InputHandlers.NilFirstIsRevived` | extension/level3.go:370-384 | a nil first value is refused when live and read as an empty one after storage |
| `InputHandlers.PrfDecisionsSurviveStorage` | extension/level3.go:87-122 | acceptance, selection and the verdict on outputs are the same before and after storage |
| `InputHandlers.LargeBlobSurvivesStorage` | extension/largeblob.go:107-147 | absent, empty and false members stay distinct through storage |
| `InputHandlers.RestoredInput` | storage/json/value.go:83-109 | what a ceremony reads back under an identifier; bool and text inputs come back unchanged |
| `HandlerFacts.PairReadExactly` | extension/level3.go:317-360 | which values are read as a prf pair, and as which |
| `HandlerFacts.PrfReadExactly` | extension/level3.go:155-221 | which values are read as a prf input, and as which |
| `HandlerFacts.PrfAllowedExactly` | extension/level3.go:87-122 | per-credential values only at authentication, for allowed credentials named by the text of an id |
| `HandlerFacts.SelectionExactly` | extension/level3.go:290-304 | each named value is selected by exactly the credential its name decodes to; others get the common values |
| `HandlerFacts.RegistrationAnswerExactly` | extension/level3.go:261-284 | which prf outputs answer a registration, by their members |
| `HandlerFacts.AuthenticationAnswerExactly` | extension/level3.go:261-315 | which prf outputs answer an authentication, by their members |
| `HandlerFacts.LargeBlobReadExactly` | extension/largeblob.go:107-147 | which values are read as a largeBlob request, and as which |
| `HandlerFacts.LargeBlobAllowedExactly` | extension/largeblob.go:149-167 | which largeBlob requests each ceremony allows |
| `HandlerFacts.NormalizedExactly` | extension/level3.go:87-122 | a handler normalizes exactly the values that it reads as an allowed input, to that input |
| `StoredCeremonies.EnvelopeStores` | storage/json/json.go:359-397 | inputs that marshal into an envelope of permitted size can be stored and read back |
| `StoredCeremonies.InputCopies` | extension/input.go:77-96 | live and restored inputs are copied within the copy's budget |
| `StoredCeremonies.StorageIdempotent` | storage/json/value.go:156-297 | storing a second time changes nothing |
| `StoredCeremonies.RestoredInputsSurvive` | storage/json/value.go:83-109 | restored inputs are decided about alike after every further storage, whatever the handlers are |
| `StoredCeremonies.PrfInputsSurvive` | extension/level3.go:87-122 | the prf handler decides alike, live and restored, about everything it normalizes to |
| `StoredCeremonies.LargeBlobInputsSurvive` | extension/largeblob.go:49-65 | the largeBlob handler decides alike, live and restored, about every typed input |
| `StoredCeremonies.LargeBlobContextSurvives` | extension_verification.go:104-129 | the allowed-credential rule for largeBlob writes holds of the restored input exactly when it holds of the live one |
| `StoredCeremonies.RestoredStateIsValid` | validation.go:59-90 | a stored authentication state is valid exactly when the live one was |
| `StoredCeremonies.RestoredRegistrationIsValid` | validation.go:21-55 | a stored registration state is valid exactly when the live one was |
| `StoredCeremonies.FinishSurvivesStorage` | authentication.go:295-407 | finish gives the restored state the same fault, or accepts it on the same evidence |
| `StoredCeremonies.RegistrationSurvivesStorage` | registration.go:147-262 | a restored registration state yields the record, or the fault, of the live one |
| `StartedCeremonies.SimpleInputsSurvive` | storage/json/value.go:165-187 | flags and texts are decided about alike, live and restored, under every identifier and registry |
| `StartedCeremonies.BuiltInResultSurvives` | extension/level2.go:60-245 | whatever a reserved identifier's own handler accepts is decided about alike, live and restored |
| `StartedCeremonies.StartedInputsSurvive` | extension_verification.go:286-335 | the inputs of every started ceremony are decided about alike, live and restored |
| `StartedCeremonies.UnstableHandlerRefuses` | storage/json/value.go:188-197 | an application handler that is not stable refuses the restored form of what it normalized to, so the next rows need that condition |
| `StartedCeremonies.AuthenticationThroughStorage` | examples/integration/app.go:139-217 | start, marshal, unmarshal and finish: the state passes validation again and gets the verdict, evidence and results of the state in memory; its only own fault is expiry (application handlers being stable at what they normalize to) |
| `StartedCeremonies.RegistrationThroughStorage` | examples/integration/app.go:84-137 | start, marshal, unmarshal and finish: the state passes validation again and yields the record or fault of the state in memory; its only own fault is expiry (application handlers being stable at what they normalize to) |
| `StartedCeremonies.SomeCeremonyGoesThroughStorage` | examples/integration/app.go:139-188 | a party with a registered handler issues a state with an input that marshals |
| `Identifiers.SortedKeys` | extension_verification.go:298-298 | the keys of a map, strictly increasing, each once |
| `Identifiers.Least` | extension_verification.go:298-298 | the first identifier of a nonempty set |
| `Identifiers.SortedIsUnique` | extension_verification.go:157-157 | sorted order leaves no freedom: the elements determine the sequence |
| `StateFacts.IdentifierExactly` | internal/protocolidentifier/identifier.go:9-19 | the lengths and characters of identifiers |
| `StateFacts.BeforeExactly` | extension_verification.go:298-298 | the order of identifiers by their first difference |
| `Extensions.NewRegistry` | extension/extension.go:433-467 | succeeds exactly for at most 64 distinct valid entries with the reserved revisions, and holds exactly those |
| `Extensions.EntryFault` | extension/extension.go:439-456 | an entry has no fault exactly when id and revision are well formed and a reserved id has its revision |
| `StateFacts.EntryExactly` | extension/extension.go:439-456 | identifiers and revisions that can be registered, the reserved ones by name |
| `StateFacts.ReservedExactly` | extension/extension.go:439-456 | the reserved identifiers with their revisions |
| `Extensions.CloneInput` | extension/input.go:77-96 | returns the input unchanged exactly when its value fits the copy budget |
| `Extensions.PrepareSorted` | extension_verification.go:296-334 | all requested inputs, with the bindings frozen in sorted order |
| `Extensions.PrepareExtensionInputs` | extension_verification.go:286-335 | succeeds exactly when every requested input can be prepared; freezes the sorted bindings of exactly the registered ids |
| `StateFacts.PreparableExactly` | extension_verification.go:286-296 | no input at all, or at most 64 that can each be prepared by a registry |
| `ExtensionFacts.PreparationRefusedExactly` | extension_verification.go:296-334 | the reasons for which start refuses an input, exactly |
| `ExtensionFacts.AttachedExactly` | extension/input.go:118-129 | the prf input of an authentication carries the texts of the allowed ids; every other input is untouched |
| `Extensions.ValidateRequestedIds` | validation.go:128-138 | passes exactly at most 64 well-formed identifiers |
| `Extensions.CollectBindings` | validation.go:107-118 | a sorted list passes exactly when its bindings are valid, requested and distinct, and the map built holds exactly them |
| `Extensions.ReservedAreBound` | validation.go:119-124 | every requested reserved identifier is bound with its revision |
| `Extensions.ValidateBindingState` | validation.go:92-126 | passes exactly sorted, distinct, valid, requested bindings that cover every reserved id with its revision |
| `StateFacts.RequestedExactly` | validation.go:92-138 | valid stored inputs and bindings, with the reserved revisions by name |
| `Extensions.ValidateFinishBindings` | extension_verification.go:353-369 | passes exactly when every requested id is bound as the registry in use binds it, in presence and revision |
| `Extensions.StartEstablishesBindings` | extension_verification.go:286-335 | bindings frozen under a valid registry satisfy stored-state validation |
| `Extensions.FinishAcceptsExactly` | extension_verification.go:353-369 | finish accepts started bindings if and only if its registry agrees with the start registry on every requested id |
| `ExtensionResults.ValidateExtensionWork` | extension_verification.go:240-267 | collects exactly the union of requested, client and authenticator ids, within limits |
| `ExtensionResults.AddIds` | extension_verification.go:245-250 | adds exactly the identifiers of one map, if all are well formed |
| `ExtensionResults.CopyOptional` | extension_verification.go:392-397 | an absent value always copies, a present one within the copy budget |
| `ExtensionResults.VerifyExtension` | extension_verification.go:170-238 | the result of one identifier: refused, preserved raw, or the handler's |
| `ExtensionFacts.RefusedExactly` | extension_verification.go:170-238 | the reasons for which an identifier gets no result, exactly |
| `ExtensionFacts.ResultExactly` | extension_verification.go:170-238 | a handler's verdict under its revision for requested registered identifiers, raw values for all others |
| `ExtensionResults.VerifyExtensions` | extension_verification.go:147-168 | succeeds exactly when every worked id has a result; result ids are strictly sorted and equal the union |
| `ExtensionResults.AcceptedOnlyByHandler` | extension/extension.go:367-376 | a result is accepted only for a requested, registered id whose handler accepted input and outputs; others keep raw values |
| `ExtensionResults.ResultsAreDetermined` | extension_verification.go:147-168 | the results do not depend on the order maps are visited in |
| `Ceremonies.TimeoutState` | ceremony.go:35-59 | succeeds exactly for usable durations; the hint is the timeout in whole milliseconds within 32 bits, the expiry lies after now |
| `StateFacts.DurationsExactly` | ceremony.go:35-59 | usable durations in nanoseconds, with defaults of five and ten minutes |
| `Ceremonies.RegistrationParameters` | ceremony.go:61-83 | keeps the supported parameters in order, defaults for none given, refuses invalid lists and lists without a supported one |
| `Ceremonies.FilterIdempotent` | ceremony.go:61-83 | filtering an accepted list again changes nothing, and what remains is valid and nonempty |
| `StateFacts.ParametersExactly` | ceremony.go:61-83 | which parameter lists are refused, and the defaults |
| `Ceremonies.ValidateAuthentication` | validation.go:59-90 | passes exactly the valid authentication states |
| `Ceremonies.ValidateRegistration` | validation.go:21-55 | passes exactly the valid registration states |
| `StateFacts.AuthenticationStateExactly` | validation.go:59-90 | valid authentication states by their fields |
| `StateFacts.RegistrationStateExactly` | validation.go:21-55 | valid registration states by their fields |
| `Ceremonies.ValidateRequested` | validation.go:51-54 | identifiers and bindings of a stored state |
| `Ceremonies.CloneInputs` | extension_verification.go:377-390 | copies every input unchanged, or fails when one exceeds the budget |
| `Ceremonies.ValidateLargeBlobContext` | extension_verification.go:104-129 | passes exactly an acceptable largeBlob input that writes only with one allowed credential |
| `StateFacts.LargeBlobRuleExactly` | extension_verification.go:104-129 | which largeBlob inputs a valid authentication state may carry |
| `Ceremonies.StartAuthentication` | authentication.go:89-185 | succeeds exactly when its demands hold; the state then passes validation, with frozen bindings and normalized inputs |
| `Ceremonies.StartRegistration` | registration_start.go:142-247 | the same for registration, with the filtered algorithms |
| `StateFacts.AuthenticationStartExactly` | authentication.go:89-185 | what an authentication start demands, field by field |
| `StateFacts.RegistrationStartExactly` | registration_start.go:142-247 | what a registration start demands, field by field |
| `Ceremonies.AttachedInputSurvivesStorage` | extension/input.go:118-129 | attaching the ceremony's credentials to the stored prf input gives the input the handler saw at start |
| `RelyingParty.New` | config.go:81-168 | succeeds exactly when the completed configuration is valid, and leaves a filter-stable parameter list |
| `RelyingParty.ExampleIsReady` | config.go:81-168 | some configuration meets everything New demands |
| `StateFacts.ConfigurationExactly` | config.go:110-168 | valid configurations by their fields |
| `StateFacts.DefaultsExactly` | config.go:81-109 | what New fills in where a choice is left open |
| `RelyingParty.PartyStartRegistration` | relying_party.go:50-83 | a state it starts is valid, holds the prepared inputs and frozen bindings, and agrees with its own finish-time configuration check |
| `RelyingParty.PartyStartAuthentication` | relying_party.go:87-131 | a state it starts is valid, holds the prepared inputs and frozen bindings, and agrees with its own finish-time configuration check |
| `RelyingParty.OwnStatesPassBindingCheck` | extension_verification.go:353-369 | bindings frozen by a party pass its own binding check at finish |
| `AuthenticatorData.ParseAttestedExactlyPrinted` | protocol/authenticator_data.go:139-167 | attested data is accepted exactly as printed from an AAGUID, an id of 1 to 1023 octets and a nonempty rest |
| `AuthenticatorData.ParseExactlyPrinted` | protocol/authenticator_data.go:100-137 | authenticator data is accepted exactly as printed from in-range fields, and determines them |
| `StateFacts.AuthenticatorDataLayout` | protocol/authenticator_data.go:100-137 | the octets of authenticator data with their literal lengths and flag bits |
| `AuthenticatorData.KeySplitExactly` | registration.go:334-370 | the tail splits into the decoded key and extensions, nonempty exactly under their flag |
| `AuthenticatorData.ReadRegistrationExactly` | registration.go:308-370 | a registration is read exactly when its octets are the seven fields in order, in range, acceptable and decoded |
| `Credentials.ApplyTouchesMutableOnly` | credential_update.go:29-56 | succeeds exactly on a valid, expected record that stays valid; writes the marked fields only; conflicts exactly when a compared value moved |
| `Credentials.UpdateAppliesToItsSnapshot` | authentication.go:362-406 | the update applies to the record it was computed from and yields the record returned beside it |
| `Credentials.UpdateRefusesOtherSnapshots` | credential_update.go:29-56 | it applies to no record that differs in a compared value |
| `Credentials.AssertionAdvances` | authentication.go:362-406 | identity is kept, UV initialization only rises and only with authorization, a known attachment is not cleared, the counter falls exactly under UpdateOnCloneRisk |
| `StateFacts.RecordExactly` | validation.go:142-162 | valid records by their fields |
| `StateFacts.CounterExactly` | authentication.go:362-372 | when counters are unsupported, incremented or a clone risk |
| `StateFacts.NextRecordExactly` | authentication.go:362-406 | the record after an assertion: larger or asserted counter, backup state, authorized verification, last known attachment |
| `StoreFacts.ApplyExactly` | credential_update.go:29-56 | the outcome of an update on any record, with its errors in order |
| `Authentication.NextState` | authentication.go:362-406 | the field-by-field assignments compute the next record and its conditional update |
| `Authentication.FinishAuthentication` | authentication.go:295-407 | returns the first fault in the order of the checks, otherwise the result of the assertion with complete extension results |
| `LoginChecks.FinishByTable` | authentication.go:295-407 | finish reports the first failure of an ordered table of checks over the raw request, state and record, and accepts exactly when all pass |
| `Authentication.AcceptedIsBound` | authentication.go:456-611 | acceptance ties credential, owner, relying party or AppID hash, client data, allow list, expiry, algorithm, counter, flags and the signed octets together |
| `Authentication.SomeRequestIsAccepted` | authentication.go:295-407 | the checks can all pass together, even under the strictest policy |
| `LoginChecks.ReturnedExactly` | authentication.go:362-406 | every field of what an accepted request returns, from the stored record and the signed octets |
| `Authentication.ReturnedUpdateApplies` | authentication.go:362-406 | every returned update applies to the verified record, yields the returned record and keeps it valid |
| `Authentication.VerifiedDataIsBound` | relying_party.go:103-123 | what acceptance through a relying party gives a caller that stores credentials |
| `Authentication.PartyFinishAuthentication` | relying_party.go:103-123 | configuration, record and algorithm are checked before verification |
| `LoginChecks.PartyByTable` | relying_party.go:103-131 | a party reports the first failure of its own comparisons, then of the table |
| `Authentication.OwnStateIsNotRejected` | relying_party.go:103-131 | a state the party started is never rejected for configuration, form or bindings; only expiry remains |
| `Registration.FinishRegistration` | registration.go:147-262 | returns the record of an accepted registration, or the first fault |
| `EnrolmentChecks.EnrolmentByTable` | registration.go:147-262 | finish reports the first failure of an ordered table of checks, and otherwise yields the record whose every field is read off the response, the attested octets and the statement's verdict |
| `EnrolmentChecks.RefusedStatementYieldsNothing` | registration.go:380-425 | no record when the statement's verifier or the trust policy refuses |
| `EnrolmentChecks.PartyEnrolmentByTable` | relying_party.go:68-83 | a party reports the first failure of its own comparison, then of the table |
| `Registration.RegisteredRecordIsValid` | registration.go:239-261 | the record is valid, belongs to the ceremony's user, its fields are those at their places in the attested octets, and its attestation type is the verdict on the statement |
| `Registration.SomeRegistrationIsAccepted` | registration.go:147-262 | a party's checks can all pass together, and the record is that of the octets |
| `Registration.PartyRecordIsValid` | relying_party.go:68-83 | a record registered through the relying party is valid and belongs to the ceremony's user |
| `Registration.OwnStateIsNotRejected` | relying_party.go:68-83 | a registration state the party started is never rejected for configuration, form or bindings; only expiry remains |
| `Stores.MemoryCeremonies.Prune` | examples/integration/memory.go:63-68 | deletes exactly the expired entries |
| `Stores.MemoryCeremonies.Save` | examples/integration/memory.go:57-78 | prunes, then stores under a new id for a session while fewer than 128 are live |
| `Stores.MemoryCeremonies.Consume` | examples/integration/memory.go:80-96 | removes a matching entry even when expired, and returns it only when not |
| `StoreFacts.SaveExactly` | examples/integration/memory.go:57-78 | which saves are accepted, and the fate of every entry |
| `StoreFacts.ConsumeExactly` | examples/integration/memory.go:80-96 | which consumes are answered how, and the fate of every entry |
| `Stores.MemoryCredentials.List` | examples/integration/memory.go:109-126 | one descriptor for each credential of the user and no other |
| `Stores.MemoryCredentials.Lookup` | examples/integration/memory.go:128-146 | the row of a credential owned by the user |
| `Stores.MemoryCredentials.Insert` | examples/integration/memory.go:148-164 | adds a valid record under a new id with version 1 |
| `Stores.MemoryCredentials.Update` | examples/integration/memory.go:166-193 | applies an update to an unchanged version below the maximum, and advances the version |
| `StoreFacts.LookupExactly` | examples/integration/memory.go:128-146 | the owner's row, denial for everyone else |
| `StoreFacts.InsertExactly` | examples/integration/memory.go:148-164 | which inserts are refused why, and the rows after any insert |
| `StoreFacts.UpdateExactly` | examples/integration/memory.go:166-193 | which updates are refused why, and the rows after any update |
| `Stores.MemorySessions.Create` | examples/integration/memory.go:200-212 | maps the new session id to its user |
| `Logins.GenuineIsSound` | examples/integration/app.go:214-217 | verification through the relying party has every property the run-level results use |
| `Logins.GenuineSite` | examples/integration/app.go:68-74 | every relying party and storage codec have a site to which the run-level results apply |
| `Logins.LoginAdvances` | examples/integration/app.go:214-223 | one accepted login: its update applies, its counter is the asserted one and above the stored one or both are zero |
| `Logins.UpdateMeetsCurrentRow` | examples/integration/memory.go:166-193 | when the version matches, the row equals the verified snapshot in every field; otherwise the update fails only for a newer version, the last version or an unstorable record |
| `Logins.UpdateSerializes` | examples/integration/app.go:221-227 | a committed update is what verify-and-apply on the current row would do |
| `Logins.SerialOpenExactly` | examples/integration/app.go:221-228 | in the serial runs a session opens once, for the user whose login the request committed |
| `Logins.RunsAreSerializable` | examples/integration/app.go:190-228 | every interleaving has the rows and sessions of the serial run over its commits, and every held snapshot is current or outdated by version |
| `LoginHistory.SerialRowsFit` | authentication.go:345-406 | row invariants and counter history of every serial run |
| `LoginHistory.RowsOfEveryRun` | examples/integration/memory.go:148-193 | in every run, rows are valid, keep identity, key, owner, backup eligibility and UV initialization; counters are zeros then strictly increasing, the last is stored, the version counts them |
| `LoginHistory.SessionsWereOpened` | examples/integration/memory.go:200-212 | a stored session was opened for the user it names |
| `LoginTraces.TracesOfEveryRun` | examples/integration/app.go:112-228 | in every run each request's effects are a prefix of consume, update, open or of consume, insert |
| `LoginTraces.SessionProvenance` | examples/integration/app.go:190-228 | each opened session has one fair consumption, one accepted login of that user's credential and nothing else; a bound account is respected, the counter was ahead or both zero, and no user verification awaited authorization |
| `LoginTraces.StoredSessionProvenance` | examples/integration/memory.go:200-212 | each stored session has such a history |
| `CeremonyUse.CeremoniesOfEveryRun` | examples/integration/memory.go:57-96 | saves equal live plus consumed plus expired ceremonies, at most 128 are live, each consumption takes what the last save under its id stored |
| `CeremonyUse.NeverConsumedTwice` | examples/integration/memory.go:80-96 | between two consumptions under one id there is a save |
| `SessionSaves.SessionSave` | examples/integration/memory.go:57-96 | the save behind a session stored the ceremony that the session's request consumed |
| `SessionSaves.SessionsUseDifferentSaves` | examples/integration/app.go:176-228 | in every run each session rests on an earlier save of an authentication ceremony, and different sessions on different saves |
| `Application.RunThenContinue` | examples/integration/app.go:190-228 | a handler's steps after a run are a longer run |
| `Application.App.Save` | examples/integration/app.go:176-188 | performs the save step, and nothing at all without a session |
| `Application.App.FinishLogin` | examples/integration/app.go:190-228 | performs exactly the five login steps; a session is returned exactly when the row was updated |
| `Application.App.CompleteLogin` | examples/integration/app.go:214-228 | the same from the snapshot on |
| `Application.CompletionAnswer` | examples/integration/app.go:214-228 | a risk is reported exactly for a counter that is not ahead or a user verification that awaits authorization |
| `HandlerAnswers.AcceptedExactly` | examples/integration/app.go:214-223 | a login is accepted exactly when it verifies without risk, and leaves the record with the asserted counter, backup state and attachment |
| `HandlerAnswers.CompletionByTable` | examples/integration/app.go:214-228 | verification, risk, version and envelope limit answer a looked-up login in this order |
| `HandlerAnswers.LoginRefusedEarly` | examples/integration/app.go:190-206 | which requests are denied, expired or refused before the lookup |
| `HandlerAnswers.LoginLooksUp` | examples/integration/app.go:206-214 | a credential that is missing or another user's is denied, any other is completed |
| `Application.UncontendedLoginOpens` | examples/integration/app.go:214-228 | an accepted login on a row nobody has written since its lookup commits and opens its session |
| `Application.App.FinishEnrolment` | examples/integration/app.go:112-137 | performs exactly the three enrolment steps; succeeds exactly when a row was added |
| `Application.App.CompleteEnrolment` | examples/integration/app.go:128-137 | the same from the consumed ceremony on |
| `HandlerAnswers.EnrolmentRefusedEarly` | examples/integration/app.go:112-128 | which enrolments are denied, expired or refused before verification |
| `HandlerAnswers.EnrolmentByTable` | examples/integration/app.go:128-137 | verification, envelope limit and unique id answer an enrolment in this order |
| `LoginExample.RaceOpensOneSession` | examples/integration/app.go:190-228 | for every accepted registration and login of a sound site: two logins that verify the same version of the credential end with one commit, one session, and one version more |
| `LoginExample.SomeSiteServes` | examples/integration/app.go:68-74 | a relying party with its verified finish functions has a site on which that race takes place |
| `Rsa.ValidExponent` | attestation/tpm/structures.go:232-242 | true exactly for odd primes, with every word operation within 32 bits |
| `Rsa.ModulusBits` | codec/codec.go:178-184 | the count taken from the first octet is the bit length of the number |
| `Rsa.ValidMaterialExactly` | codec/codec.go:178-184 | valid exactly for a minimally encoded odd modulus N with 2^2047 <= N < 2^16384 and an odd exponent of at least 3 |
| `Tpm.TpmReader.Uint` | attestation/tpm/structures.go:455-483 | reads a big-endian integer and moves past it, or stays in place; never leaves the buffer |
| `Tpm.TpmReader.SizedBytes` | attestation/tpm/structures.go:485-497 | reads a length and that many octets; never leaves the buffer |
| `Tpm.TpmReader.Skip` | attestation/tpm/structures.go:499-506 | moves on only within the buffer |
| `Tpm.ParseScheme` | attestation/tpm/structures.go:206-226 | consumes a null scheme, or an allowed one with a supported hash |
| `Tpm.ParseSymmetricDefinition` | attestation/tpm/structures.go:194-204 | consumes the null algorithm only |
| `Tpm.CheckRsaKey` | attestation/tpm/structures.go:179-191 | passes exactly valid key material with an odd prime exponent and the stated bit length |
| `Tpm.TakeSchemeExactly` | attestation/tpm/structures.go:206-226 | schemes are read exactly as printed |
| `Tpm.ParseEccPublicArea` | attestation/tpm/structures.go:134-162 | accepts exactly the readable ECC parts with coordinates of the curve's length |
| `Tpm.ParseRsaPublicArea` | attestation/tpm/structures.go:164-192 | accepts exactly the readable RSA parts with a valid key of the stated size; zero stands for exponent 65537 |
| `Tpm.ParsePublicArea` | attestation/tpm/structures.go:89-132 | accepts exactly what AreaOf reads, with every octet consumed, and keeps its key |
| `Tpm.AreaExactly` | attestation/tpm/structures.go:89-226 | public areas are accepted exactly as printed from in-range fields, and determine them |
| `TpmFacts.KeyExactly` | attestation/tpm/structures.go:134-298 | accepted keys by curve number, coordinate length, scheme, hash and exponent, as literals |
| `TpmFacts.KeptExactly` | attestation/tpm/structures.go:134-298 | what is kept of a key; an exponent field of 0 stands for 65537 |
| `TpmFacts.EccAreaLayout` | attestation/tpm/structures.go:89-210 | the octets of an ECC public area |
| `TpmFacts.RsaAreaLayout` | attestation/tpm/structures.go:89-298 | the octets of an RSA public area |
| `Tpm.ParseCertInfo` | attestation/tpm/structures.go:300-341 | accepts exactly what CertOf reads, with every octet consumed |
| `Tpm.CertExactly` | attestation/tpm/structures.go:300-341 | certify structures are accepted exactly as printed from in-range fields, and determine them |
| `TpmFacts.CertLayout` | attestation/tpm/structures.go:300-341 | the octets of a certify structure |
| `Tpm.ParseTpmSignature` | attestation/tpm/structures.go:355-416 | accepts exactly the framed signatures and returns what verification takes, DER for ECDSA |
| `Tpm.ParseEcdsaSignature` | attestation/tpm/structures.go:391-402 | two nonempty sized integers, returned in DER |
| `Tpm.ParseRsaSignature` | attestation/tpm/structures.go:373-386 | one nonempty sized octet string |
| `Tpm.SignatureExactly` | attestation/tpm/structures.go:355-416 | signatures are accepted exactly as printed under the required algorithms with nonempty parts |
| `TpmFacts.SignatureLayout` | attestation/tpm/structures.go:355-416 | the octets of framed signatures and the algorithms they may name |
| `Der.SignatureReadsBack` | attestation/tpm/structures.go:391-416 | an ECDSA signature is one DER sequence of two minimal integers with the values of the framed octets |
| `Der.LengthExactly` | attestation/tpm/structures.go:391-416 | lengths in their shortest form |
| `Policies.EvaluatePolicy` | attestation/policy.go:328-378 | the loops compute the tree's verdict, with warnings gathered in order |
| `Policies.VerdictExactly` | attestation/policy.go:328-378 | the verdict of any tree by the first child that decides it, with reasons and warnings |
| `Policies.MissingChildFails` | attestation/policy.go:328-378 | a nil child fails its node, all or any, unless an earlier child has decided |
| `Policies.FlattenKeepsMeaning` | attestation/policy.go:328-378 | nested nodes of one kind give the acceptance, reason, warnings and error of the flattened tree |
| `Policies.FlattenIsFlat` | attestation/policy.go:328-378 | flattening leaves no node with a child of its own kind, at any level |
| `Policies.EmptyNodeMatters` | attestation/policy.go:329-331 | an empty nested node is an error, so it must not be flattened away |
| `Policies.AcceptedHolds` | attestation/policy.go:328-378 | acceptance implies that the boolean formula holds, whatever fails |
| `Policies.EvaluatesAsFormula` | attestation/policy.go:328-378 | without leaf errors a well-formed tree accepts exactly when its formula holds |
| `Compound.RequiredSuccesses` | attestation/compound/compound.go:165-184 | which policies and counts are refused, and the requirement: all, or the given minimum |
| `Compound.VerifyAttestation` | attestation/compound/compound.go:71-163 | each error exactly for its cause; otherwise enough statements verified, each statement one result or one warning |
| `Compound.VerifiedExactly` | attestation/compound/compound.go:100-160 | the results are those of exactly the valid statements, in order |
| `Compound.WarningsExactly` | attestation/compound/compound.go:100-160 | exactly the statements that did not verify are warned about, by verdict and format |
| `CredentialIndex.Cell.Assign` | internal/e2eapp/store.go:184-196 | writes exactly the changed fields |
| `CredentialIndex.Store.InsertCredential` | internal/e2eapp/store.go:138-151 | adds a record under a new id to both indexes, in insertion order |
| `CredentialIndex.Store.CredentialById` | internal/e2eapp/store.go:153-161 | the current record under the id |
| `CredentialIndex.Store.CredentialsForUser` | internal/e2eapp/store.go:163-172 | exactly the owner's records with their current values, each once, in insertion order |
| `CredentialIndex.Store.UpdateCredential` | internal/e2eapp/store.go:174-198 | replaces exactly one record, seen through both indexes, when the previous values match |
| `IndexRuns.IdentityKept` | internal/e2eapp/store.go:138-198 | a record the store ever held is still there, with its identity, key, owner and backup eligibility |
| `IndexRuns.TableIsSound` | internal/e2eapp/store.go:138-198 | after any run of inserts and updates every stored record is valid and under its own id |
| `IndexRuns.EveryUpdateIsApplyTo` | internal/e2eapp/store.go:174-198 | an update that passes the comparison finds the verified snapshot and leaves the returned record, as ApplyTo does; any other is a conflict for ApplyTo too |
| `IndexRuns.ReturnedUpdateIsAdmissible` | authentication.go:362-406 | what verification returns is such an update |
| `IndexRuns.LoginUpdateIsApplyTo` | internal/e2eapp/handlers_login.go:95-116 | the login handler's update has the effect of ApplyTo on whatever the store holds by then |
| `IndexRuns.Perform` | internal/e2eapp/store.go:138-198 | the store after a run holds exactly the records of the run, and lists every owner's records in the order in which the run inserted them |

## Left out

- Cryptography and X.509: hashing, signature verification, certificate profiles and the attestation formats behind them are given functions.
- CBOR and JSON text: the trees above them are modelled; the text layer is taken to round-trip and to be at least as long as the strings it carries.
- Origin and URL parsing: origin policy validity and RP ID scoping are given predicates, as is the agreement of a remote client data input with its challenge.
- Context cancellation, random generation, mutexes as such and error texts: a store call is one step, generated ids and challenges are parameters, errors are enumerations.
- Application extension types with their own clone methods, maps with keys other than text, and pointer cycles: values are built-in inputs and raw trees.
- CloneWalk.CloneSequence: does not represent a nil slice of a type other than octets, which the source copies to an empty one, because a list value has no nil form here.
- CloneWalk.CloneMap: does not represent maps with keys other than text, which the source also copies, because extension values are keyed by text.
- StoredInputs.MarshalImpliesUnmarshal: speaks about the length of the envelope text only; version, kind and payload checks are stated in the envelope members.
- Integer and float widths of dynamic values: a number is unbounded or real, with NaN and the infinities kept apart; signed zero is not distinguished.
- Client outputs that are present in the map but hold an absent value, which are refused before verification.
- Aliasing of defensively copied slices in request and record values: these are values here; only the store of shared records keeps references.
- beginLogin and beginEnrollment as handlers: a save step stores any ceremony, which covers whatever they start; the account store is a parameter.
- The browser options that start returns beside the state, hints, and the warnings and attestation details that finish returns beside the credential.
- Wire decoding of browser responses, HTTP handlers, cookies, sessions of the end-to-end application and user creation.
- How the appid, uvm, credProps, remoteClientDataJSON and largeBlob handlers judge outputs, and typed retrieval of results: they would only add easy members.
- Leaf trust policies: a leaf is any given verdict.
- The members of stored records and states other than extension inputs: which valid records fit an envelope is a given predicate.
- Clock overflow in expiry computation: times are unbounded.
