// The checks of an assertion as one ordered table over the raw request, the stored state and the credential: finish
// reports the first one that fails, and accepts exactly when all pass.
module LoginChecks {
  import opened Base
  import opened Values
  import opened Identifiers
  import opened AuthenticatorData
  import opened InputHandlers
  import opened Extensions
  import opened ExtensionResults
  import opened ExtensionFacts
  import opened Ceremonies
  import opened Credentials
  import opened RelyingParty
  import opened Authentication

  // ----- The table -----

  /** The party, the record, the stored state, and the shape of the response. */
  ghost function StateTable(outside: Outside, policy: AuthPolicy, q: FinishRequest): seq<Check<AuthError>> {
    var s, r, c := q.state, q.response, q.credential;
    [Check(policy.hasVerifier, InvalidDependencies),
     Check(ValidRecord(c), InvalidCredential),
     Check(!policy.counter.rejectCloneRisk || !policy.counter.updateOnCloneRisk, InvalidDependencies),
     Check(s.expiresAt == 0 || q.now < s.expiresAt, Expired),
     Check(ValidAuthentication(outside, s), InvalidCeremony),
     Check(BoundAsRegistered(s.requested, policy.registry), BindingsDiffer),
     Check(r.kind == PublicKeyType && [] !in [r.rawId, r.authenticatorData, r.signature] && r.clientDataJson != "",
           MalformedResponse),
     Check(|r.client| <= 64 && forall id :: id in r.client ==> ValidIdentifier(id), ExtensionPolicyFailure)]
  }

  /** Whose credential it is. */
  ghost function OwnerTable(q: FinishRequest): seq<Check<AuthError>> {
    var s, r, c := q.state, q.response, q.credential;
    [Check(c.rpId == s.rpId, CredentialRpIdMismatch),
     Check(r.rawId == c.id && (s.allow == [] || exists d :: d in s.allow && d.id == c.id), CredentialNotAllowed),
     Check(s.expectedUser != [] ==> s.expectedUser == c.user && r.userHandle in [[], c.user], OwnershipMismatch),
     Check(s.expectedUser == [] ==> r.userHandle != [], UserHandleMissing),
     Check(s.expectedUser == [] ==> r.userHandle == c.user, OwnershipMismatch)]
  }

  /** Client data and authenticator data. */
  function DataTable(crypto: Crypto, policy: AuthPolicy, q: FinishRequest): seq<Check<AuthError>> {
    var s, r, c, p := q.state, q.response, q.credential, ParsedOr(q.response.authenticatorData);
    [Check(crypto.clientDataFits(r.clientDataJson, Authentication, s.challenge, s.policy), ClientDataRejected),
     Check(Parse(r.authenticatorData).Ok?, MalformedResponse),
     Check(!Bit(p.flags, 0x40), MalformedResponse),
     Check(HashAgrees(crypto, policy, q, p), HashMismatch),
     Check(Bit(p.flags, 0x01), PresenceMissing),
     Check(s.uv == UvRequired ==> Bit(p.flags, 0x04), VerificationMissing),
     Check(Bit(p.flags, 0x10) ==> Bit(p.flags, 0x08), BackupStateInvalid),
     Check(Bit(p.flags, 0x08) == c.backupEligible, BackupEligibilityMismatch)]
  }

  /** Outputs, algorithm, signature and counter. */
  function ProofTable(crypto: Crypto, policy: AuthPolicy, q: FinishRequest): seq<Check<AuthError>> {
    var r, c, p := q.response, q.credential, ParsedOr(q.response.authenticatorData);
    [Check(Bit(p.flags, 0x80) ==> policy.hasExtensionDecoder, DecoderMissing),
     Check(Bit(p.flags, 0x80) ==> crypto.extensionMap(p.extensionData).Some?, MalformedResponse),
     Check(policy.accepts.Some? ==> policy.accepts.value(c.key.algorithm), UnsupportedAlgorithm),
     Check(crypto.verifies(c.key, r.authenticatorData + crypto.hash(r.clientDataJson), r.signature), SignatureInvalid),
     Check(policy.counter.rejectCloneRisk ==> c.signCount < p.signCount || c.signCount == p.signCount == 0,
           CloneRiskRejected)]
  }

  function OutputsOf(crypto: Crypto, p: Parsed): map<string, Value> {
    if !Bit(p.flags, 0x80) then map[]
    else match crypto.extensionMap(p.extensionData) case Some(outputs) => outputs case None => map[]
  }

  /** A bound remote client data input is the returned client data, and every identifier that is requested or has an
      output gets a result. */
  ghost function ExtensionTable(crypto: Crypto, policy: AuthPolicy, q: FinishRequest): seq<Check<AuthError>> {
    var s, r, c := q.state, q.response, q.credential;
    var outputs := OutputsOf(crypto, ParsedOr(r.authenticatorData));
    var w := Work(Authentication, c.id, policy.registry, policy.rejectUnrequested, policy.rejectUnknown,
                  AttachAllowed(s.allow), s.requested.inputs, r.client, outputs);
    [Check(RemoteAgreement(s.requested, r.clientDataJson), ExtensionPolicyFailure),
     Check(EveryIdHasResult(w), ExtensionPolicyFailure)]
  }

  ghost function LoginTable(outside: Outside, crypto: Crypto, policy: AuthPolicy,
                            q: FinishRequest): seq<Check<AuthError>>
  {
    (StateTable(outside, policy, q) + OwnerTable(q)) + (DataTable(crypto, policy, q) + ProofTable(crypto, policy, q))
    + ExtensionTable(crypto, policy, q)
  }

  // ----- Finish follows the table -----

  lemma StateIsSorted(outside: Outside, s: AuthenticationState)
    requires ValidAuthentication(outside, s)
    ensures SortedBindings(s.requested.bindings)
  {
    hide LargeBlobContext, ValidDescriptors, ValidScope, Before, BuiltInRevision;
  }

  lemma StateByTable(outside: Outside, policy: AuthPolicy, q: FinishRequest)
    ensures var fault := FirstFailure(StateTable(outside, policy, q), 0);
            CeremonyFault(outside, policy, q) ==
              if fault.Some? then fault
              else if CredentialFault(q.state, q.response, q.credential).Some?
              then CredentialFault(q.state, q.response, q.credential)
              else UserFault(q.state, q.response, q.credential)
  {
    hide FirstFailure, ValidAuthentication, BindingsAgree, BoundAsRegistered, ValidIdentifier, ValidRecord,
      CredentialFault, UserFault;
    var t := StateTable(outside, policy, q);
    NextCheck(t, 0);
    NextCheck(t, 1);
    NextCheck(t, 2);
    NextCheck(t, 3);
    NextCheck(t, 4);
    NextCheck(t, 5);
    NextCheck(t, 6);
    NextCheck(t, 7);
    NextCheck(t, 8);
    if ValidAuthentication(outside, q.state) {
      StateIsSorted(outside, q.state);
      BindingsByTable(q.state.requested, policy.registry);
    }
  }

  lemma OwnerByTable(q: FinishRequest)
    requires q.credential.rpId != "" && q.credential.user != []
    ensures FirstFailure(OwnerTable(q), 0) ==
              if CredentialFault(q.state, q.response, q.credential).Some?
              then CredentialFault(q.state, q.response, q.credential)
              else UserFault(q.state, q.response, q.credential)
  {
    hide FirstFailure;
    var t := OwnerTable(q);
    NextCheck(t, 0);
    NextCheck(t, 1);
    NextCheck(t, 2);
    NextCheck(t, 3);
    NextCheck(t, 4);
    NextCheck(t, 5);
  }

  lemma PassedRecord(outside: Outside, policy: AuthPolicy, q: FinishRequest)
    requires FirstFailure(StateTable(outside, policy, q), 0).None?
    ensures q.credential.rpId != "" && q.credential.user != []
  {
    hide FirstFailure, ValidAuthentication, BoundAsRegistered, ValidIdentifier;
    NextCheck(StateTable(outside, policy, q), 0);
    NextCheck(StateTable(outside, policy, q), 1);
  }

  lemma CeremonyByTable(outside: Outside, policy: AuthPolicy, q: FinishRequest)
    ensures CeremonyFault(outside, policy, q) == FirstFailure(StateTable(outside, policy, q) + OwnerTable(q), 0)
  {
    hide FirstFailure, StateTable, OwnerTable, CeremonyFault, CredentialFault, UserFault;
    FirstOfBoth(StateTable(outside, policy, q), OwnerTable(q), 0);
    StateByTable(outside, policy, q);
    if FirstFailure(StateTable(outside, policy, q), 0).None? {
      PassedRecord(outside, policy, q);
      OwnerByTable(q);
    }
  }

  lemma HashByTable(crypto: Crypto, policy: AuthPolicy, q: FinishRequest, p: Parsed)
    ensures Some(p.rpIdHash) == ExpectedHash(crypto, policy, q.state, q.response) <==> HashAgrees(crypto, policy, q, p)
  {}

  lemma DataByTable(crypto: Crypto, policy: AuthPolicy, q: FinishRequest)
    ensures var fault := FirstFailure(DataTable(crypto, policy, q), 0);
            && (fault.Some? ==> EvidenceOf(crypto, policy, q) == Err(fault.value))
            && (fault.None? ==>
                  && crypto.clientDataFits(q.response.clientDataJson, Authentication, q.state.challenge, q.state.policy)
                  && VerifyAssertionData(crypto, policy, q.state, q.response, q.credential)
                       == Ok(ParsedOr(q.response.authenticatorData)))
  {
    hide FirstFailure, Parse, ExpectedHash, HashAgrees, DecodeOutputs;
    var t := DataTable(crypto, policy, q);
    NextCheck(t, 0);
    NextCheck(t, 1);
    NextCheck(t, 2);
    NextCheck(t, 3);
    NextCheck(t, 4);
    NextCheck(t, 5);
    NextCheck(t, 6);
    NextCheck(t, 7);
    NextCheck(t, 8);
    if Parse(q.response.authenticatorData).Ok? {
      HashByTable(crypto, policy, q, Parse(q.response.authenticatorData).value);
    }
  }

  lemma ProofByTable(crypto: Crypto, policy: AuthPolicy, q: FinishRequest)
    requires FirstFailure(DataTable(crypto, policy, q), 0).None?
    ensures var fault, p := FirstFailure(ProofTable(crypto, policy, q), 0), ParsedOr(q.response.authenticatorData);
            EvidenceOf(crypto, policy, q) == if fault.Some? then Err(fault.value) else Ok((p, OutputsOf(crypto, p)))
  {
    hide FirstFailure, ParsedOr, DataTable, VerifyAssertionData;
    var t := ProofTable(crypto, policy, q);
    DataByTable(crypto, policy, q);
    NextCheck(t, 0);
    NextCheck(t, 1);
    NextCheck(t, 2);
    NextCheck(t, 3);
    NextCheck(t, 4);
    NextCheck(t, 5);
  }

  lemma EvidenceByTable(crypto: Crypto, policy: AuthPolicy, q: FinishRequest)
    ensures var fault := FirstFailure(DataTable(crypto, policy, q) + ProofTable(crypto, policy, q), 0);
            var p := ParsedOr(q.response.authenticatorData);
            EvidenceOf(crypto, policy, q) == if fault.Some? then Err(fault.value) else Ok((p, OutputsOf(crypto, p)))
  {
    hide FirstFailure, DataTable, ProofTable, EvidenceOf, VerifyAssertionData, ParsedOr, OutputsOf;
    FirstOfBoth(DataTable(crypto, policy, q), ProofTable(crypto, policy, q), 0);
    DataByTable(crypto, policy, q);
    if FirstFailure(DataTable(crypto, policy, q), 0).None? { ProofByTable(crypto, policy, q); }
  }

  lemma ExtensionsByTable(crypto: Crypto, policy: AuthPolicy, q: FinishRequest)
    ensures ExtensionsPass(policy, q, OutputsOf(crypto, ParsedOr(q.response.authenticatorData))) <==>
              FirstFailure(ExtensionTable(crypto, policy, q), 0).None?
    ensures FirstFailure(ExtensionTable(crypto, policy, q), 0) in {None, Some(ExtensionPolicyFailure)}
  {
    hide FirstFailure, RemoteBound, RemoteAgreement, ResultOf, ParsedOr, OutputsOf, EveryIdHasResult, WithinWork;
    var table := ExtensionTable(crypto, policy, q);
    RemoteByTable(q.state.requested, q.response.clientDataJson);
    WorkByTable(WorkFor(policy, q.state, q.response, q.credential,
                        OutputsOf(crypto, ParsedOr(q.response.authenticatorData))));
    NextCheck(table, 0);
    NextCheck(table, 1);
    NextCheck(table, 2);
  }

  /** Finish reports the first check of the table that fails, with its error, and accepts exactly when none does. */
  lemma FinishByTable(outside: Outside, crypto: Crypto, policy: AuthPolicy, q: FinishRequest)
    ensures FinishFault(outside, crypto, policy, q) == FirstFailure(LoginTable(outside, crypto, policy, q), 0)
    ensures FinishFault(outside, crypto, policy, q).None? <==>
              forall i :: 0 <= i < |LoginTable(outside, crypto, policy, q)| ==>
                LoginTable(outside, crypto, policy, q)[i].passes
  {
    hide FirstFailure, StateTable, OwnerTable, DataTable, ProofTable, ExtensionTable, CeremonyFault, EvidenceOf,
      ExtensionsPass, OutputsOf, ParsedOr;
    var a := StateTable(outside, policy, q) + OwnerTable(q);
    var b := DataTable(crypto, policy, q) + ProofTable(crypto, policy, q);
    FirstOfBoth(a + b, ExtensionTable(crypto, policy, q), 0);
    FirstOfBoth(a, b, 0);
    CeremonyByTable(outside, policy, q);
    EvidenceByTable(crypto, policy, q);
    ExtensionsByTable(crypto, policy, q);
    NoFailure(LoginTable(outside, crypto, policy, q), 0);
  }

  /** What an accepted request returns, field by field: the next record and the update to it from the stored one, the
      owner, the comparison of the counters, and the flags of the signed octets. */
  lemma ReturnedExactly(crypto: Crypto, policy: AuthPolicy, q: FinishRequest, result: AuthenticationResult)
    requires EvidenceOf(crypto, policy, q).Ok?
    ensures var c, p, n := q.credential, ParsedOr(q.response.authenticatorData), result.credential;
            Returns(crypto, policy, q, result) <==>
              && n == NextRecord(c, Assertion(p.signCount, Bit(p.flags, 0x10), Bit(p.flags, 0x04),
                                              q.response.attachment, q.uvAuthorized, policy.counter.updateOnCloneRisk))
              && result.update == CredentialUpdate(
                   c.id, c.signCount, c.backedUp, c.uvInitialized, c.attachment,
                   n.signCount, c.signCount != n.signCount, n.backedUp, c.backedUp != n.backedUp,
                   n.uvInitialized, c.uvInitialized != n.uvInitialized, n.attachment, c.attachment != n.attachment)
              && result.authenticatedAs == c.user
              && result.counter == (if c.signCount < p.signCount then Incremented
                                    else if c.signCount == 0 then Unsupported else CloneRisk)
              && result.userPresent == Bit(p.flags, 0x01)
              && result.userVerified == Bit(p.flags, 0x04)
              && result.uvPending == (Bit(p.flags, 0x04) && !c.uvInitialized && !q.uvAuthorized)
  {
    hide FirstFailure, EvidenceOf, ParsedOr, DataTable, ProofTable, OutputsOf;
    EvidenceByTable(crypto, policy, q);
  }

  // ----- Through a relying party -----

  /** What a party compares before it verifies: scope, origins, user verification, record and algorithm. */
  ghost function PartyTable(p: Party, q: FinishRequest): seq<Check<AuthError>> {
    var mine, theirs := p.config.policy, q.state.policy;
    [Check(&& q.state.rpId == p.config.rpId && q.state.uv == p.config.uv
           && theirs.allowedOrigins == mine.allowedOrigins && theirs.allowedTopOrigins == mine.allowedTopOrigins
           && theirs.allowRelatedOrigins == mine.allowRelatedOrigins
           && theirs.allowCrossOriginWithoutTopOrigin == mine.allowCrossOriginWithoutTopOrigin, StateMismatch),
     Check(ValidRecord(q.credential), InvalidCredential),
     Check(q.credential.key.algorithm in p.algorithms, UnsupportedAlgorithm)]
  }

  /** The policy that a party verifies under. */
  function PartyPolicy(p: Party, o: OutputPolicy): AuthPolicy {
    var c := p.config;
    AuthPolicy(c.dependencies.signatureVerifier, Some(c.accepts), c.dependencies.extensionDecoder, c.registry,
               o.rejectUnrequested, o.rejectUnknown, o.appId, c.counter)
  }

  /** A party reports the first failure of its own comparisons, then of the table. */
  lemma PartyByTable(outside: Outside, crypto: Crypto, p: Party, o: OutputPolicy, q: FinishRequest)
    ensures PartyFault(outside, crypto, p, o, q)
         == FirstFailure(PartyTable(p, q) + LoginTable(outside, crypto, PartyPolicy(p, o), q), 0)
  {
    hide FirstFailure, LoginTable, FinishFault, ValidRecord;
    var a, b := PartyTable(p, q), LoginTable(outside, crypto, PartyPolicy(p, o), q);
    FirstOfBoth(a, b, 0);
    FinishByTable(outside, crypto, PartyPolicy(p, o), q);
    NextCheck(a, 0);
    NextCheck(a, 1);
    NextCheck(a, 2);
    NextCheck(a, 3);
  }
}
