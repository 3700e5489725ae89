// Runs of the end-to-end application's credential store: inserts of registered records, and in-place
// updates computed from snapshots that the same store handed out earlier.
module IndexRuns {
  import opened Base
  import opened Ceremonies
  import opened Credentials
  import opened Authentication
  import opened CredentialIndex

  /** A change of the store. An update carries the snapshot that was verified and what the assertion said. */
  datatype Change = Insert(record: CredentialRecord) | Update(snapshot: CredentialRecord, a: Assertion)

  function UpdateOf(c: CredentialRecord, a: Assertion): CredentialUpdate { UpdateFor(c, NextRecord(c, a)) }

  /** The records after a sequence of changes. */
  function TableAfter(changes: seq<Change>): Table {
    if changes == [] then map[]
    else
      var t := TableAfter(changes[..|changes| - 1]);
      match changes[|changes| - 1]
      case Insert(record) => AfterInsert(t, record)
      case Update(c, a) => AfterUpdate(t, UpdateOf(c, a))
  }

  /** The store held `c` after the first `n` changes. */
  predicate Held(changes: seq<Change>, n: nat, c: CredentialRecord)
    requires n <= |changes|
  {
    c.id in TableAfter(changes[..n]) && TableAfter(changes[..n])[c.id] == c
  }

  /** Inserted records are valid, and updates come from accepted assertions on records that this store held. */
  ghost predicate Admissible(changes: seq<Change>) {
    forall i :: 0 <= i < |changes| ==> AdmissibleAt(changes, i)
  }

  ghost predicate AdmissibleAt(changes: seq<Change>, i: nat)
    requires i < |changes|
  {
    match changes[i]
    case Insert(record) => ValidRecord(record)
    case Update(c, a) => (a.backedUp ==> c.backupEligible) && exists n: nat :: n <= i && Held(changes, n, c)
  }

  lemma OneMoreChange(changes: seq<Change>, n: nat)
    requires n < |changes|
    ensures TableAfter(changes[..n + 1]) ==
            match changes[n]
            case Insert(record) => AfterInsert(TableAfter(changes[..n]), record)
            case Update(c, a) => AfterUpdate(TableAfter(changes[..n]), UpdateOf(c, a))
  {
    hide AfterInsert, AfterUpdate, UpdateOf;
    assert changes[..n + 1][..n] == changes[..n];
  }

  lemma AssignedKeeps(u: CredentialUpdate, c: CredentialRecord)
    ensures SameIdentity(c, Assigned(u, c))
  {}

  lemma IdentityTransitive(a: CredentialRecord, b: CredentialRecord, c: CredentialRecord)
    requires SameIdentity(a, b) && SameIdentity(b, c)
    ensures SameIdentity(a, c)
  {}

  /** A record that the store ever held is still there, with its identity, key, owner and backup eligibility. */
  lemma {:induction false} IdentityKept(changes: seq<Change>, n: nat, m: nat, id: seq<byte>)
    requires n <= m <= |changes| && id in TableAfter(changes[..n])
    ensures id in TableAfter(changes[..m]) && SameIdentity(TableAfter(changes[..n])[id], TableAfter(changes[..m])[id])
    decreases m
  {
    hide TableAfter, Assigned, Expects, SameIdentity, UpdateOf;
    if n == m {
      SelfIdentity(TableAfter(changes[..n])[id]);
    } else {
      IdentityKept(changes, n, m - 1, id);
      OneMoreChange(changes, m - 1);
      var before, after := TableAfter(changes[..m - 1])[id], TableAfter(changes[..m])[id];
      if changes[m - 1].Update? { AssignedKeeps(UpdateOf(changes[m - 1].snapshot, changes[m - 1].a), before); }
      SelfIdentity(before);
      IdentityTransitive(TableAfter(changes[..n])[id], before, after);
    }
  }

  lemma SelfIdentity(c: CredentialRecord)
    ensures SameIdentity(c, c)
  {}

  /** Records with one identity that agree in the compared values are equal. */
  lemma ExpectedIsSnapshot(c: CredentialRecord, a: Assertion, stored: CredentialRecord)
    requires SameIdentity(c, stored) && Expects(UpdateOf(c, a), stored)
    ensures stored == c
  {}

  lemma UpdateId(c: CredentialRecord, a: Assertion)
    ensures UpdateOf(c, a).id == c.id && NextRecord(c, a).id == c.id
  {}

  /** An update of a snapshot that this store held, against the store's current record. */
  lemma OwnUpdate(changes: seq<Change>, n: nat, m: nat, c: CredentialRecord, a: Assertion)
    requires n <= m <= |changes| && Held(changes, n, c) && (a.backedUp ==> c.backupEligible)
    requires c.id in TableAfter(changes[..m]) ==> ValidRecord(TableAfter(changes[..m])[c.id])
    ensures c.id in TableAfter(changes[..m])
    ensures var u, stored := UpdateOf(c, a), TableAfter(changes[..m])[c.id];
            if Expects(u, stored)
            then stored == c && ApplyTo(u, stored) == Ok(Assigned(u, stored)) && Assigned(u, stored) == NextRecord(c, a)
            else ApplyTo(u, stored) == Err(Conflict)
  {
    hide TableAfter, NextRecord, SameIdentity, ValidRecord, Assigned;
    IdentityKept(changes, n, m, c.id);
    var stored := TableAfter(changes[..m])[c.id];
    if Expects(UpdateOf(c, a), stored) {
      ExpectedIsSnapshot(c, a, stored);
      UpdateAppliesToItsSnapshot(c, a);
      InPlaceIsApplyTo(c, a, stored);
    }
  }

  /** Every stored record is valid and stored under its own id. */
  ghost predicate Sound(t: Table) { forall id :: id in t ==> t[id].id == id && ValidRecord(t[id]) }

  lemma {:induction false} TableIsSound(changes: seq<Change>, m: nat)
    requires Admissible(changes) && m <= |changes|
    ensures Sound(TableAfter(changes[..m]))
  {
    hide TableAfter, ValidRecord, Assigned, Expects, UpdateOf, NextRecord, Held;
    if m == 0 {
      NothingStored(changes);
    } else {
      TableIsSound(changes, m - 1);
      OneMoreChange(changes, m - 1);
      assert AdmissibleAt(changes, m - 1);
      match changes[m - 1]
      case Insert(record) =>
      case Update(c, a) =>
        var n: nat :| n <= m - 1 && Held(changes, n, c);
        OwnUpdate(changes, n, m - 1, c, a);
        UpdateId(c, a);
    }
  }

  lemma NothingStored(changes: seq<Change>)
    ensures TableAfter(changes[..0]) == map[] && Inserted(changes[..0]) == []
  {}

  /** The checked update of one record in a table. */
  function Checked(t: Table, u: CredentialUpdate): Table {
    if u.id !in t then t
    else
      match ApplyTo(u, t[u.id])
      case Ok(next) => t[u.id := next]
      case Err(_) => t
  }

  /** After any sequence of inserts and updates, an in-place update of a snapshot that the store handed out does
      exactly what ApplyTo does: where it passes the comparison, the record is still the snapshot and becomes the
      record that verification returned; where it does not, ApplyTo reports a conflict. */
  lemma EveryUpdateIsApplyTo(changes: seq<Change>, i: nat)
    requires Admissible(changes) && i < |changes| && changes[i].Update?
    ensures var c, a, t := changes[i].snapshot, changes[i].a, TableAfter(changes[..i]);
            var u := UpdateOf(c, a);
            && c.id in t
            && TableAfter(changes[..i + 1]) == AfterUpdate(t, u) == Checked(t, u)
            && (Expects(u, t[c.id]) ==> t[c.id] == c && TableAfter(changes[..i + 1])[c.id] == NextRecord(c, a))
            && (!Expects(u, t[c.id]) ==> ApplyTo(u, t[c.id]) == Err(Conflict))
  {
    hide TableAfter, ValidRecord, Assigned, Expects, UpdateOf, NextRecord, Held, ApplyTo;
    TableIsSound(changes, i);
    assert AdmissibleAt(changes, i);
    var c, a := changes[i].snapshot, changes[i].a;
    var n: nat :| n <= i && Held(changes, n, c);
    OwnUpdate(changes, n, i, c, a);
    UpdateId(c, a);
    OneMoreChange(changes, i);
  }

  // ----- Updates from verification -----

  /** What a verified request returns is the update of an admissible change. */
  lemma ReturnedUpdateIsAdmissible(outside: Outside, crypto: Crypto, policy: AuthPolicy, q: FinishRequest,
                                   result: AuthenticationResult) returns (a: Assertion)
    requires FinishFault(outside, crypto, policy, q).None?
    requires EvidenceOf(crypto, policy, q).Ok? && Returns(crypto, policy, q, result)
    ensures a.backedUp ==> q.credential.backupEligible
    ensures result.update == UpdateOf(q.credential, a) && result.credential == NextRecord(q.credential, a)
  {
    hide FinishFault, EvidenceOf, UpdateFor, NextRecord;
    AcceptedIsBound(outside, crypto, policy, q);
    a := AssertionOf(policy, q, EvidenceOf(crypto, policy, q).value.0);
  }

  /** The login handler's last store call: verified on a record the store held, its update extends the run, and has
      the effect of ApplyTo on whatever the store holds now. */
  lemma LoginUpdateIsApplyTo(outside: Outside, crypto: Crypto, policy: AuthPolicy, changes: seq<Change>, n: nat,
                             q: FinishRequest, result: AuthenticationResult)
    requires Admissible(changes) && n <= |changes| && Held(changes, n, q.credential)
    requires FinishFault(outside, crypto, policy, q).None?
    requires EvidenceOf(crypto, policy, q).Ok? && Returns(crypto, policy, q, result)
    ensures exists a :: result.update == UpdateOf(q.credential, a) && Admissible(changes + [Update(q.credential, a)])
    ensures AfterUpdate(TableAfter(changes), result.update) == Checked(TableAfter(changes), result.update)
    ensures q.credential.id in TableAfter(changes)
            && (Expects(result.update, TableAfter(changes)[q.credential.id]) ==>
                  AfterUpdate(TableAfter(changes), result.update)
                      == TableAfter(changes)[q.credential.id := result.credential])
  {
    hide FinishFault, EvidenceOf, Returns, TableAfter, NextRecord, UpdateOf, ValidRecord, ApplyTo, Expects, Assigned;
    var a := ReturnedUpdateIsAdmissible(outside, crypto, policy, q, result);
    var longer := changes + [Update(q.credential, a)];
    OneMoreAdmissible(changes, n, q.credential, a);
    EveryUpdateIsApplyTo(longer, |changes|);
    assert longer[..|changes|] == changes;
    UpdateId(q.credential, a);
  }

  lemma OneMoreAdmissible(changes: seq<Change>, n: nat, c: CredentialRecord, a: Assertion)
    requires Admissible(changes) && n <= |changes| && Held(changes, n, c) && (a.backedUp ==> c.backupEligible)
    ensures Admissible(changes + [Update(c, a)])
  {
    hide TableAfter, ValidRecord;
    var longer := changes + [Update(c, a)];
    forall i | 0 <= i < |longer| ensures AdmissibleAt(longer, i) {
      if i < |changes| {
        assert AdmissibleAt(changes, i);
        if changes[i].Update? {
          var k: nat :| k <= i && Held(changes, k, changes[i].snapshot);
          assert longer[..k] == changes[..k];
          assert Held(longer, k, longer[i].snapshot);
        }
      } else {
        assert longer[..n] == changes[..n];
        assert Held(longer, n, c);
      }
    }
  }

  // ----- The store performs such runs -----

  /** The records that a run inserted, in order: each insert whose id was not there yet. */
  function Inserted(changes: seq<Change>): seq<CredentialRecord> {
    if changes == [] then []
    else
      var before, last := changes[..|changes| - 1], changes[|changes| - 1];
      Inserted(before)
      + (if last.Insert? && last.record.id !in TableAfter(before) then [last.record] else [])
  }

  lemma OneMoreInserted(changes: seq<Change>, n: nat)
    requires n < |changes|
    ensures Inserted(changes[..n + 1]) ==
              Inserted(changes[..n])
              + (if changes[n].Insert? && changes[n].record.id !in TableAfter(changes[..n]) then [changes[n].record]
                 else [])
  {
    hide TableAfter;
    assert changes[..n + 1][..n] == changes[..n];
  }

  /** The ids of one owner's records, in order. */
  function OwnedIds(records: seq<CredentialRecord>, user: seq<byte>): seq<seq<byte>> {
    if records == [] then []
    else
      var last := records[|records| - 1];
      OwnedIds(records[..|records| - 1], user) + (if last.user == user then [last.id] else [])
  }

  /** A log of exactly these records. */
  ghost predicate Logs(log: seq<Insertion>, records: seq<CredentialRecord>) {
    |log| == |records| && forall i :: 0 <= i < |log| ==> log[i].id == records[i].id && log[i].user == records[i].user
  }

  lemma {:induction false} LoggedIds(log: seq<Insertion>, records: seq<CredentialRecord>, user: seq<byte>)
    requires Logs(log, records)
    ensures IdsOf(log, user) == OwnedIds(records, user)
  {
    if log != [] { LoggedIds(log[..|log| - 1], records[..|records| - 1], user); }
  }

  /** The store after a sequence of changes holds exactly the records of the run, and lists every owner's records in
      the order in which the run inserted them. */
  method Perform(changes: seq<Change>, now: int) returns (store: Store)
    ensures fresh(store) && fresh(store.cells) && store.Valid() && store.Contents() == TableAfter(changes)
    ensures Logs(store.log, Inserted(changes))
    ensures forall user :: IdsOf(store.log, user) == OwnedIds(Inserted(changes), user)
  {
    hide Indexed, TableAfter, AfterInsert, AfterUpdate, UpdateOf, Inserted, IdsOf, OwnedIds;
    store := new Store();
    NothingStored(changes);
    for i := 0 to |changes|
      invariant fresh(store) && fresh(store.cells) && store.Valid()
      invariant store.Contents() == TableAfter(changes[..i])
      invariant Logs(store.log, Inserted(changes[..i]))
    {
      OneMoreChange(changes, i);
      OneMoreInserted(changes, i);
      match changes[i]
      case Insert(record) =>
        var inserted := store.InsertCredential(record, now);
      case Update(c, a) =>
        var updated := store.UpdateCredential(UpdateOf(c, a), now);
    }
    assert changes[..|changes|] == changes;
    forall user ensures IdsOf(store.log, user) == OwnedIds(Inserted(changes), user) {
      LoggedIds(store.log, Inserted(changes), user);
    }
  }
}
