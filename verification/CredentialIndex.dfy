// The end-to-end application's credential store: two indexes that share record objects, so an
// update made through one is seen through the other.
module CredentialIndex {
  import opened Base
  import opened AuthenticatorData
  import opened Credentials

  /** A stored record, updated in place. */
  class Cell {
    var credential: CredentialRecord
    var updatedAt: int

    constructor (c: CredentialRecord, now: int)
      ensures credential == c && updatedAt == now
    {
      credential, updatedAt := c, now;
    }

    /** Writes the changed fields of an update, one by one. */
    method Assign(u: CredentialUpdate, now: int)
      modifies this
      ensures credential == Assigned(u, old(credential)) && updatedAt == now
    {
      if u.signCountChanged {
        credential := credential.(signCount := u.signCount);
      }
      if u.backedUpChanged {
        credential := credential.(backedUp := u.backedUp);
      }
      if u.uvInitializedChanged {
        credential := credential.(uvInitialized := u.uvInitialized);
      }
      if u.attachmentChanged {
        credential := credential.(attachment := u.attachment);
      }
      updatedAt := now;
    }
  }

  /** One insertion: the id and owner that the object keeps, and the object. */
  datatype Insertion = Insertion(id: seq<byte>, user: seq<byte>, cell: Cell)

  /** The objects of one owner, in the order of insertion. */
  ghost function CellsOf(log: seq<Insertion>, user: seq<byte>): seq<Cell> {
    if log == [] then []
    else
      var last := log[|log| - 1];
      CellsOf(log[..|log| - 1], user) + (if last.user == user then [last.cell] else [])
  }

  /** The credential ids of one owner, in the order of insertion. */
  ghost function IdsOf(log: seq<Insertion>, user: seq<byte>): seq<seq<byte>> {
    if log == [] then []
    else
      var last := log[|log| - 1];
      IdsOf(log[..|log| - 1], user) + (if last.user == user then [last.id] else [])
  }

  lemma {:induction false} CellsMatchIds(log: seq<Insertion>, user: seq<byte>, i: nat)
    requires i < |CellsOf(log, user)| || i < |IdsOf(log, user)|
    ensures |CellsOf(log, user)| == |IdsOf(log, user)|
    ensures exists k :: 0 <= k < |log| && log[k].user == user && CellsOf(log, user)[i] == log[k].cell
              && IdsOf(log, user)[i] == log[k].id
  {
    var before, last := log[..|log| - 1], log[|log| - 1];
    if i < |CellsOf(before, user)| || i < |IdsOf(before, user)| {
      CellsMatchIds(before, user, i);
      var k :| 0 <= k < |before| && before[k].user == user && CellsOf(before, user)[i] == before[k].cell
          && IdsOf(before, user)[i] == before[k].id;
      assert log[k] == before[k];
    } else {
      SameLength(before, user);
      assert log[|log| - 1].user == user;
    }
  }

  lemma {:induction false} SameLength(log: seq<Insertion>, user: seq<byte>)
    ensures |CellsOf(log, user)| == |IdsOf(log, user)|
  {
    if log != [] { SameLength(log[..|log| - 1], user); }
  }

  /** An owner's list names every insertion of that owner. */
  lemma {:induction false} IdsOfIsOwned(log: seq<Insertion>, user: seq<byte>, k: nat)
    requires k < |log|
    ensures log[k].user == user ==> log[k].id in IdsOf(log, user)
  {
    if k < |log| - 1 {
      IdsOfIsOwned(log[..|log| - 1], user, k);
    }
  }

  /** No owner's list names an id twice. */
  lemma {:induction false} IdsOfAreDistinct(log: seq<Insertion>, user: seq<byte>, i: nat, j: nat)
    requires forall a, b :: 0 <= a < b < |log| ==> log[a].id != log[b].id
    requires i < j < |IdsOf(log, user)|
    ensures IdsOf(log, user)[i] != IdsOf(log, user)[j]
  {
    var before := log[..|log| - 1];
    if j < |IdsOf(before, user)| {
      IdsOfAreDistinct(before, user, i, j);
    } else {
      CellsMatchIds(before, user, i);
    }
  }

  /** The records of a store by id. */
  type Table = map<seq<byte>, CredentialRecord>

  /** An id is inserted once. */
  function AfterInsert(t: Table, record: CredentialRecord): Table {
    if record.id in t then t else t[record.id := record]
  }

  /** An update that finds its previous values writes its changed fields, without further checks. */
  function AfterUpdate(t: Table, u: CredentialUpdate): Table {
    if u.id in t && Expects(u, t[u.id]) then t[u.id := Assigned(u, t[u.id])] else t
  }

  function ListIn(byUser: map<seq<byte>, seq<Cell>>, user: seq<byte>): seq<Cell> {
    if user in byUser then byUser[user] else []
  }

  /** By id, every inserted object is held under its own id, and nothing else is. */
  ghost predicate IndexedById(byId: map<seq<byte>, Cell>, log: seq<Insertion>, position: map<seq<byte>, nat>,
      cells: set<Cell>) {
    && (forall i :: 0 <= i < |log| ==> log[i].cell in cells && log[i].id in byId && byId[log[i].id] == log[i].cell)
    && (forall i :: 0 <= i < |log| ==> log[i].id in position && position[log[i].id] == i)
    && (forall id :: id in byId ==> id in position && position[id] < |log| && log[position[id]].id == id)
    && (forall i, j :: 0 <= i < j < |log| ==> log[i].cell != log[j].cell)
  }

  /** By user, every inserted object is in its owner's list, and nothing else is in any list. */
  ghost predicate IndexedByUser(byUser: map<seq<byte>, seq<Cell>>, log: seq<Insertion>) {
    forall u :: ListIn(byUser, u) == CellsOf(log, u)
  }

  /** Both indexes hold exactly the inserted objects. */
  ghost predicate Indexed(byId: map<seq<byte>, Cell>, byUser: map<seq<byte>, seq<Cell>>, log: seq<Insertion>,
                          position: map<seq<byte>, nat>, cells: set<Cell>)
  {
    IndexedById(byId, log, position, cells) && IndexedByUser(byUser, log)
  }

  lemma CellsOneMore(log: seq<Insertion>, last: Insertion, user: seq<byte>)
    ensures CellsOf(log + [last], user) == CellsOf(log, user) + (if last.user == user then [last.cell] else [])
  {
    assert (log + [last])[..|log|] == log;
  }

  lemma ByIdAfterInsert(byId: map<seq<byte>, Cell>, log: seq<Insertion>, position: map<seq<byte>, nat>,
      cells: set<Cell>, last: Insertion)
    requires IndexedById(byId, log, position, cells) && last.id !in byId && last.cell !in cells
    ensures IndexedById(byId[last.id := last.cell], log + [last], position[last.id := |log|], cells + {last.cell})
  {
    var longer := log + [last];
    assert forall i :: 0 <= i < |log| ==> longer[i] == log[i];
  }

  lemma ByUserAfterInsert(byUser: map<seq<byte>, seq<Cell>>, log: seq<Insertion>, last: Insertion)
    requires IndexedByUser(byUser, log)
    ensures IndexedByUser(byUser[last.user := ListIn(byUser, last.user) + [last.cell]], log + [last])
  {
    hide CellsOf;
    var after := byUser[last.user := ListIn(byUser, last.user) + [last.cell]];
    forall u ensures ListIn(after, u) == CellsOf(log + [last], u) { CellsOneMore(log, last, u); }
  }

  lemma IndexedAfterInsert(byId: map<seq<byte>, Cell>, byUser: map<seq<byte>, seq<Cell>>, log: seq<Insertion>,
                           position: map<seq<byte>, nat>, cells: set<Cell>, id: seq<byte>, user: seq<byte>, cell: Cell)
    requires Indexed(byId, byUser, log, position, cells) && id !in byId && cell !in cells
    ensures Indexed(byId[id := cell], byUser[user := ListIn(byUser, user) + [cell]], log + [Insertion(id, user, cell)],
                    position[id := |log|], cells + {cell})
  {
    hide IndexedById, IndexedByUser, ListIn;
    ByIdAfterInsert(byId, log, position, cells, Insertion(id, user, cell));
    ByUserAfterInsert(byUser, log, Insertion(id, user, cell));
  }

  lemma DistinctIds(byId: map<seq<byte>, Cell>, byUser: map<seq<byte>, seq<Cell>>, log: seq<Insertion>,
                    position: map<seq<byte>, nat>, cells: set<Cell>)
    requires Indexed(byId, byUser, log, position, cells)
    ensures forall a, b :: 0 <= a < b < |log| ==> log[a].id != log[b].id
  {
    hide CellsOf, ListIn;
  }

  /** Different ids name different objects. */
  lemma DistinctCells(byId: map<seq<byte>, Cell>, byUser: map<seq<byte>, seq<Cell>>, log: seq<Insertion>,
                      position: map<seq<byte>, nat>, cells: set<Cell>, a: seq<byte>, b: seq<byte>)
    requires Indexed(byId, byUser, log, position, cells) && a in byId && b in byId
    ensures byId[a] in cells && a in position && position[a] < |log| && log[position[a]].id == a
              && byId[a] == log[position[a]].cell
    ensures a != b ==> byId[a] != byId[b]
  {
    hide CellsOf;
    assert log[position[a]].cell == byId[a] && log[position[b]].cell == byId[b];
  }

  class Store {
    var byId: map<seq<byte>, Cell>
    var byUser: map<seq<byte>, seq<Cell>>
    ghost var log: seq<Insertion>
    ghost var position: map<seq<byte>, nat>
    ghost var cells: set<Cell>

    /** The indexes agree, and every object still has the id and owner it was inserted with. */
    ghost predicate Valid()
      reads this, cells
    {
      && Indexed(byId, byUser, log, position, cells)
      && (forall i :: 0 <= i < |log| ==> log[i].cell in cells && log[i].cell.credential.id == log[i].id
                                         && log[i].cell.credential.user == log[i].user)
    }

    /** The stored records by id. */
    ghost function Contents(): Table
      requires Valid()
      reads this, cells
    {
      map id | id in byId :: RecordOf(id)
    }

    ghost function RecordOf(id: seq<byte>): CredentialRecord
      requires Valid() && id in byId
      reads this, cells
    {
      DistinctCells(byId, byUser, log, position, cells, id, id);
      byId[id].credential
    }

    constructor ()
      ensures Valid() && Contents() == map[] && log == [] && cells == {}
    {
      byId, byUser, log, position, cells := map[], map[], [], map[], {};
    }

    /** Adds a record under a new id to both indexes. */
    method InsertCredential(record: CredentialRecord, now: int) returns (ok: bool)
      requires Valid()
      modifies this
      ensures Valid() && fresh(cells - old(cells))
      ensures ok <==> record.id !in old(Contents())
      ensures Contents() == AfterInsert(old(Contents()), record)
      ensures ok ==> |log| == |old(log)| + 1 && log[..|old(log)|] == old(log)
      ensures ok ==> log[|old(log)|].id == record.id && log[|old(log)|].user == record.user
      ensures !ok ==> log == old(log)
    {
      hide Indexed, ListIn;
      if record.id in byId {
        return false;
      }
      var cell := new Cell(record, now);
      assert cell !in cells;
      IndexedAfterInsert(byId, byUser, log, position, cells, record.id, record.user, cell);
      byId := byId[record.id := cell];
      byUser := byUser[record.user := ListIn(byUser, record.user) + [cell]];
      position := position[record.id := |log|];
      log := log + [Insertion(record.id, record.user, cell)];
      cells := cells + {cell};
      assert forall i :: 0 <= i < |old(log)| ==> log[i] == old(log)[i];
      assert forall id :: id in old(byId) ==> byId[id] == old(byId)[id] && byId[id] != cell;
      return true;
    }

    method CredentialById(id: seq<byte>) returns (r: Option<CredentialRecord>)
      requires Valid()
      ensures r == if id in Contents() then Some(Contents()[id]) else None
    {
      return if id in byId then Some(byId[id].credential) else None;
    }

    /** An owner's records with their current values, in the order of insertion. */
    method CredentialsForUser(user: seq<byte>) returns (out: seq<CredentialRecord>)
      requires Valid()
      ensures |out| == |IdsOf(log, user)|
      ensures forall i :: 0 <= i < |out| ==>
                IdsOf(log, user)[i] in Contents() && out[i] == Contents()[IdsOf(log, user)[i]]
      ensures forall i :: 0 <= i < |out| ==> out[i].user == user
      ensures forall id :: id in Contents() && Contents()[id].user == user ==> id in IdsOf(log, user)
      ensures forall i, j :: 0 <= i < j < |out| ==> out[i].id != out[j].id
    {
      hide CellsOf, IdsOf;

      var records := if user in byUser then byUser[user] else [];
      SameLength(log, user);
      assert records == ListIn(byUser, user) == CellsOf(log, user);
      out := [];
      for i := 0 to |records|
        invariant |out| == i
        invariant forall k :: 0 <= k < i ==>
                  IdsOf(log, user)[k] in Contents() && out[k] == Contents()[IdsOf(log, user)[k]]
        invariant forall k :: 0 <= k < i ==> out[k].user == user && out[k].id == IdsOf(log, user)[k]
      {
        CellsMatchIds(log, user, i);
        out := out + [records[i].credential];
      }
      forall id | id in Contents() && Contents()[id].user == user ensures id in IdsOf(log, user) {
        DistinctCells(byId, byUser, log, position, cells, id, id);
        IdsOfIsOwned(log, user, position[id]);
      }
      forall i, j | 0 <= i < j < |out| ensures IdsOf(log, user)[i] != IdsOf(log, user)[j] {
        DistinctIds(byId, byUser, log, position, cells);
        IdsOfAreDistinct(log, user, i, j);
      }
    }

    /** Compares the previous values and assigns the changed fields in place. */
    method UpdateCredential(u: CredentialUpdate, now: int) returns (ok: bool)
      requires Valid()
      modifies cells
      ensures Valid()
      ensures ok <==> u.id in old(Contents()) && Expects(u, old(Contents())[u.id])
      ensures Contents() == AfterUpdate(old(Contents()), u)
    {
      hide Indexed, Assigned;
      if u.id !in byId {
        return false;
      }
      var record := byId[u.id];
      DistinctCells(byId, byUser, log, position, cells, u.id, u.id);
      if record.credential.signCount != u.previousSignCount || record.credential.backedUp != u.previousBackedUp
         || record.credential.uvInitialized != u.previousUvInitialized
             || record.credential.attachment != u.previousAttachment
      {
        return false;
      }
      AssignedKeepsIdentity(u, record.credential);
      forall id | id in byId && id != u.id ensures byId[id] != record && byId[id] in cells {
        DistinctCells(byId, byUser, log, position, cells, id, u.id);
      }
      record.Assign(u, now);
      return true;
    }
  }

  lemma AssignedKeepsIdentity(u: CredentialUpdate, c: CredentialRecord)
    ensures Assigned(u, c).id == c.id && Assigned(u, c).user == c.user
  {}

  /** Applied in place to any valid record it expects, an update does what ApplyTo does exactly when the record may
      carry the assertion's backup state. */
  lemma InPlaceIsApplyTo(c: CredentialRecord, a: Assertion, stored: CredentialRecord)
    requires ValidRecord(c) && ValidRecord(stored)
    ensures var u := UpdateFor(c, NextRecord(c, a));
            Expects(u, stored) ==>
              (ApplyTo(u, stored) == Ok(Assigned(u, stored)) <==> (a.backedUp ==> stored.backupEligible))
    ensures !Expects(UpdateFor(c, NextRecord(c, a)), stored) <==>
              ApplyTo(UpdateFor(c, NextRecord(c, a)), stored) == Err(Conflict)
  {
    hide ValidKey;
    var next := NextRecord(c, a);
    var u := UpdateFor(c, next);
    if Expects(u, stored) { AssignedIsNext(c, next, stored); }
  }

  /** Writing the changed fields over the expected values gives the new values of all four. */
  lemma AssignedIsNext(c: CredentialRecord, next: CredentialRecord, stored: CredentialRecord)
    requires Expects(UpdateFor(c, next), stored)
    ensures Assigned(UpdateFor(c, next), stored)
         == stored.(signCount := next.signCount, backedUp := next.backedUp, uvInitialized := next.uvInitialized,
             attachment := next.attachment)
  {}
}
