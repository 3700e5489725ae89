// The application's stores, entry by entry: what each call keeps, adds, removes and refuses.
module StoreFacts {
  import opened Base
  import opened Ceremonies
  import opened Credentials
  import opened Stores

  // ----- Ceremonies -----

  /** A save is accepted under a new, nonempty id for a browser session, before its expiry, while fewer than 128
      unexpired ceremonies are stored. Accepted or not, it drops the expired ones and keeps all others. */
  lemma SaveExactly(entries: CeremonyTable, id: string, saved: SavedCeremony, now: Time)
    ensures CanSave(entries, id, saved, now) <==>
              && id != "" && saved.session != "" && now < saved.expires
              && !(id in entries && now < entries[id].expires)
              && |set k | k in entries && now < entries[k].expires| < 128
    ensures forall k :: k in AfterSave(entries, id, saved, now) <==>
              (k in entries && now < entries[k].expires) || (k == id && CanSave(entries, id, saved, now))
    ensures forall k :: k in AfterSave(entries, id, saved, now) ==>
              AfterSave(entries, id, saved, now)[k]
                == if k == id && CanSave(entries, id, saved, now) then saved else entries[k]
  {
    assert Live(entries, now).Keys == set k | k in entries && now < entries[k].expires;
    assert |Live(entries, now)| == |Live(entries, now).Keys|;
  }

  /** A ceremony is given out to its own browser session, for its kind and its account if one is named, and only before
      its expiry; a matching one is removed either way, and nothing else ever is. */
  lemma ConsumeExactly(entries: CeremonyTable, id: string, session: string, kind: CeremonyKind,
                       account: Option<seq<byte>>, now: Time)
    ensures var mine := && id in entries && session != "" && entries[id].session == session && entries[id].kind == kind
                        && (account == None || account == Some(entries[id].account));
            && ConsumeResult(entries, id, session, kind, account, now)
                 == (if !mine then Err(Denied) else if now < entries[id].expires then Ok(entries[id])
                     else Err(CeremonyExpired))
            && (forall k :: k in AfterConsume(entries, id, session, kind, account) <==>
                  k in entries && !(k == id && mine))
            && (forall k :: k in AfterConsume(entries, id, session, kind, account) ==>
                  AfterConsume(entries, id, session, kind, account)[k] == entries[k])
  {}

  // ----- Credentials -----

  lemma LookupExactly(rows: Rows, id: seq<byte>, user: seq<byte>)
    ensures LookupResult(rows, id, user)
         == if id in rows && rows[id].record.user == user then Ok(rows[id]) else Err(Denied)
  {}

  /** An insert adds a valid storable record under a new id, with version 1, and changes nothing else. */
  lemma InsertExactly(rows: Rows, storable: Storable, c: CredentialRecord)
    ensures InsertFault(rows, storable, c) == Some(NotStorable) <==> !(ValidRecord(c) && storable(c))
    ensures InsertFault(rows, storable, c) == Some(Duplicate) <==> ValidRecord(c) && storable(c) && c.id in rows
    ensures InsertFault(rows, storable, c) in {None, Some(NotStorable), Some(Duplicate)}
    ensures AfterInsert(rows, storable, c)
         == if ValidRecord(c) && storable(c) && c.id !in rows then rows + map[c.id := Row(c, 1)] else rows
  {
    hide ValidRecord;
  }

  /** An update replaces the record of an unchanged version by the applied one, one version later, and changes nothing
      else; it conflicts where the row is missing, has another version or the last one, or differs from what the update
      expects, and is refused where the new record does not fit its envelope. */
  lemma UpdateExactly(rows: Rows, storable: Storable, u: CredentialUpdate, version: nat)
    ensures var current := u.id in rows && rows[u.id].version == version != 18446744073709551615
                           && ApplyTo(u, rows[u.id].record).Ok?;
            && (UpdateFault(rows, storable, u, version) == Some(UpdateConflict) <==> !current)
            && (UpdateFault(rows, storable, u, version) == Some(NotStorable) <==>
                  current && !storable(ApplyTo(u, rows[u.id].record).value))
            && UpdateFault(rows, storable, u, version) in {None, Some(UpdateConflict), Some(NotStorable)}
            && AfterUpdate(rows, storable, u, version) ==
                 if current && storable(ApplyTo(u, rows[u.id].record).value)
                 then rows + map[u.id := Row(ApplyTo(u, rows[u.id].record).value, version + 1)] else rows
  {
    hide ApplyTo;
  }

  /** Applying an update: an invalid record is refused, then one that lacks a compared value, then one that the update
      would make invalid. */
  lemma ApplyExactly(u: CredentialUpdate, c: CredentialRecord)
    ensures var expected := (c.id, c.signCount, c.backedUp, c.uvInitialized, c.attachment)
              == (u.id, u.previousSignCount, u.previousBackedUp, u.previousUvInitialized, u.previousAttachment);
            var next := c.(signCount := if u.signCountChanged then u.signCount else c.signCount,
                           backedUp := if u.backedUpChanged then u.backedUp else c.backedUp,
                           uvInitialized := if u.uvInitializedChanged then u.uvInitialized else c.uvInitialized,
                           attachment := if u.attachmentChanged then u.attachment else c.attachment);
            ApplyTo(u, c) == if !ValidRecord(c) then Err(InvalidRecord) else if !expected then Err(Conflict)
                             else if ValidRecord(next) then Ok(next) else Err(InvalidUpdate)
  {
    hide ValidRecord;
  }
}
