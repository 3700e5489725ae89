// The application's three stores. Each method runs under a mutex, so each is one atomic step;
// its specification function is what the run-level reasoning uses.
module Stores {
  import opened Base
  import opened Ceremonies
  import opened Credentials

  const MAX_LIVE := 128
  const MAX_VERSION := 0xffff_ffff_ffff_ffff

  datatype StoreError = Denied | CeremonyExpired | Duplicate | UpdateConflict | NotStorable

  // ----- Ceremonies -----

  datatype CeremonyKind = RegistrationKind | AuthenticationKind

  datatype SavedCeremony = SavedCeremony(
    kind: CeremonyKind, session: string, account: seq<byte>, expires: Time, payload: seq<byte>)

  type CeremonyTable = map<string, SavedCeremony>

  /** The entries that have not expired. */
  function Live(entries: CeremonyTable, now: Time): (kept: CeremonyTable)
    ensures |kept| <= |entries|
  {
    var kept := map id | id in entries && now < entries[id].expires :: entries[id];
    assert kept.Keys <= entries.Keys;
    SubsetSize(kept.Keys, entries.Keys);
    kept
  }

  lemma {:induction false} SubsetSize<T>(a: set<T>, b: set<T>)
    requires a <= b
    ensures |a| <= |b|
  {
    if a != {} {
      var x :| x in a;
      SubsetSize(a - {x}, b - {x});
    }
  }

  /** Whether a save is accepted after pruning. */
  predicate CanSave(entries: CeremonyTable, id: string, saved: SavedCeremony, now: Time) {
    && id !in Live(entries, now) && id != "" && saved.session != ""
    && now < saved.expires && |Live(entries, now)| < MAX_LIVE
  }

  function AfterSave(entries: CeremonyTable, id: string, saved: SavedCeremony, now: Time): CeremonyTable {
    if CanSave(entries, id, saved, now) then Live(entries, now)[id := saved] else Live(entries, now)
  }

  /** The request names a live entry of its own browser session, kind and, when given, account. */
  predicate CanConsume(entries: CeremonyTable, id: string, session: string, kind: CeremonyKind,
      account: Option<seq<byte>>) {
    && id in entries && session != "" && entries[id].session == session && entries[id].kind == kind
    && (account.Some? ==> entries[id].account == account.value)
  }

  function AfterConsume(entries: CeremonyTable, id: string, session: string, kind: CeremonyKind,
      account: Option<seq<byte>>): CeremonyTable {
    if CanConsume(entries, id, session, kind, account) then entries - {id} else entries
  }

  function ConsumeResult(entries: CeremonyTable, id: string, session: string, kind: CeremonyKind,
                         account: Option<seq<byte>>, now: Time): Result<SavedCeremony, StoreError>
  {
    if !CanConsume(entries, id, session, kind, account) then Err(Denied)
    else if now >= entries[id].expires then Err(CeremonyExpired)
    else Ok(entries[id])
  }

  class MemoryCeremonies {
    var entries: CeremonyTable

    constructor ()
      ensures entries == map[]
    {
      entries := map[];
    }

    /** Deletes every expired entry. */
    method Prune(now: Time)
      modifies this
      ensures entries == Live(old(entries), now)
    {
      var pending := entries.Keys;
      while pending != {}
        invariant pending <= old(entries).Keys
        invariant forall k :: k in pending ==> k in entries
        invariant forall k :: k in entries ==> k in old(entries) && entries[k] == old(entries)[k]
        invariant forall k :: k in old(entries) && k !in pending ==> (k in entries <==> now < old(entries)[k].expires)
        decreases |pending|
      {
        var key :| key in pending;
        if !(now < entries[key].expires) {
          entries := entries - {key};
        }
        pending := pending - {key};
      }
    }

    /** Prunes expired entries, then stores a new one if it fits. */
    method Save(id: string, saved: SavedCeremony, now: Time) returns (ok: bool)
      modifies this
      ensures ok <==> CanSave(old(entries), id, saved, now)
      ensures entries == AfterSave(old(entries), id, saved, now)
    {
      hide Live;
      Prune(now);
      if id in entries {
        return false;
      }
      if id == "" || saved.session == "" || !(now < saved.expires) || |entries| >= MAX_LIVE {
        return false;
      }
      entries := entries[id := saved];
      return true;
    }

    /** Removes a matching entry whether or not it has expired, and returns it if it has not. */
    method Consume(id: string, session: string, kind: CeremonyKind, account: Option<seq<byte>>, now: Time)
      returns (r: Result<SavedCeremony, StoreError>)
      modifies this
      ensures entries == AfterConsume(old(entries), id, session, kind, account)
      ensures r == ConsumeResult(old(entries), id, session, kind, account, now)
    {
      if id !in entries || session == "" || entries[id].session != session || entries[id].kind != kind
         || (account.Some? && entries[id].account != account.value)
      {
        return Err(Denied);
      }
      var saved := entries[id];
      entries := entries - {id};
      if !(now < saved.expires) {
        return Err(CeremonyExpired);
      }
      return Ok(saved);
    }
  }

  // ----- Credentials -----

  /** A stored credential with the number of writes it has seen. */
  datatype Row = Row(record: CredentialRecord, version: nat)

  type Rows = map<seq<byte>, Row>

  function LookupResult(rows: Rows, id: seq<byte>, user: seq<byte>): Result<Row, StoreError> {
    if id !in rows || rows[id].record.user != user then Err(Denied) else Ok(rows[id])
  }

  /** Which valid records fit the storage envelope; the codec refuses every invalid record. */
  type Storable = CredentialRecord -> bool

  function InsertFault(rows: Rows, storable: Storable, c: CredentialRecord): Option<StoreError> {
    if !ValidRecord(c) || !storable(c) then Some(NotStorable) else if c.id in rows then Some(Duplicate) else None
  }

  function AfterInsert(rows: Rows, storable: Storable, c: CredentialRecord): Rows {
    if InsertFault(rows, storable, c).Some? then rows else rows[c.id := Row(c, 1)]
  }

  function UpdateFault(rows: Rows, storable: Storable, u: CredentialUpdate, version: nat): Option<StoreError> {
    if u.id !in rows || rows[u.id].version != version || version == MAX_VERSION then Some(UpdateConflict)
    else
      match ApplyTo(u, rows[u.id].record)
      case Err(_) => Some(UpdateConflict)
      case Ok(next) => if !storable(next) then Some(NotStorable) else None
  }

  /** A successful update advances the version even when it changes no field. */
  function AfterUpdate(rows: Rows, storable: Storable, u: CredentialUpdate, version: nat): Rows {
    if UpdateFault(rows, storable, u, version).Some? then rows
    else rows[u.id := Row(ApplyTo(u, rows[u.id].record).value, version + 1)]
  }

  function OwnedBy(rows: Rows, user: seq<byte>): set<seq<byte>> { set id | id in rows && rows[id].record.user == user }

  class MemoryCredentials {
    var entries: Rows
    const storable: Storable

    constructor (storable: Storable)
      ensures entries == map[] && this.storable == storable
    {
      this.storable := storable;
      entries := map[];
    }

    /** Descriptors of a user's credentials, one for each, in an arbitrary order. */
    method List(user: seq<byte>) returns (out: seq<Descriptor>)
      ensures forall i :: 0 <= i < |out| ==>
                exists id :: id in OwnedBy(entries, user) && out[i] == DescriptorOf(entries[id].record)
      ensures forall id :: id in OwnedBy(entries, user) ==> DescriptorOf(entries[id].record) in out
      ensures |out| == |OwnedBy(entries, user)|
    {
      out := [];
      var pending := entries.Keys;
      ghost var listed: set<seq<byte>> := {};
      while pending != {}
        invariant pending <= entries.Keys && listed <= OwnedBy(entries, user) && |out| == |listed|
        invariant forall id :: id in OwnedBy(entries, user) ==> (id in listed <==> id !in pending)
        invariant forall i :: 0 <= i < |out| ==>
                  exists id :: id in OwnedBy(entries, user) && out[i] == DescriptorOf(entries[id].record)
        invariant forall id :: id in listed ==> DescriptorOf(entries[id].record) in out
        decreases |pending|
      {
        var id :| id in pending;
        if entries[id].record.user == user {
          assert id in OwnedBy(entries, user);
          out := out + [DescriptorOf(entries[id].record)];
          listed := listed + {id};
        }
        pending := pending - {id};
      }
      assert listed == OwnedBy(entries, user);
    }

    method Lookup(id: seq<byte>, user: seq<byte>) returns (r: Result<Row, StoreError>)
      ensures r == LookupResult(entries, id, user)
    {
      if id !in entries {
        return Err(Denied);
      }
      var entry := entries[id];
      if entry.record.user != user {
        return Err(Denied);
      }
      return Ok(entry);
    }

    method Insert(c: CredentialRecord) returns (error: Option<StoreError>)
      modifies this`entries
      ensures error == InsertFault(old(entries), storable, c)
      ensures entries == AfterInsert(old(entries), storable, c)
    {
      if !ValidRecord(c) || !storable(c) {
        return Some(NotStorable);
      }
      if c.id in entries {
        return Some(Duplicate);
      }
      entries := entries[c.id := Row(c, 1)];
      return None;
    }

    method Update(u: CredentialUpdate, version: nat) returns (error: Option<StoreError>)
      modifies this`entries
      ensures error == UpdateFault(old(entries), storable, u, version)
      ensures entries == AfterUpdate(old(entries), storable, u, version)
    {
      if u.id !in entries || entries[u.id].version != version || version == MAX_VERSION {
        return Some(UpdateConflict);
      }
      var next := ApplyTo(u, entries[u.id].record);
      if next.Err? {
        return Some(UpdateConflict);
      }
      if !storable(next.value) {
        return Some(NotStorable);
      }
      entries := entries[u.id := Row(next.value, version + 1)];
      return None;
    }
  }

  function DescriptorOf(c: CredentialRecord): Descriptor { Descriptor(c.kind, c.id, c.transports) }

  // ----- Sessions -----

  class MemorySessions {
    var entries: map<string, seq<byte>>

    constructor ()
      ensures entries == map[]
    {
      entries := map[];
    }

    /** Opens a session under a generated id. */
    method Create(id: string, user: seq<byte>)
      modifies this
      ensures entries == old(entries)[id := user]
    {
      entries := entries[id := user];
    }
  }
}
