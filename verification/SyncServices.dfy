/** The sync objects: the state tracker, the two content syncers and the orchestrator, each method proved
    equal to its function on worlds. */
module SyncServices {
  import opened Options
  import opened SyncModel

  // ----- the database and the remote service -----

  class Store {
    var rows: map<Key, SyncState>
    var ids: seq<Key>
    var contents: map<Key, Content>

    constructor (contents: map<Key, Content>)
      ensures rows == map[] && ids == [] && this.contents == contents
    {
      rows, ids, this.contents := map[], [], contents;
    }

    ghost function Table(): Db
      reads this
    {
      Db(rows, ids)
    }

    method GetContentSyncState(key: Key, ok: bool) returns (r: Result<Option<SyncState>, string>)
      ensures r == if ok then Ok(Row(Table(), key)) else Err("read sync state")
    {
      r := if !ok then Err("read sync state") else if key in rows then Ok(Some(rows[key])) else Ok(None);
    }

    method UpdateContentSyncState(id: nat, p: Patch, ok: bool) returns (err: Verdict)
      modifies this`rows
      ensures Table() == (if ok then Updated(old(Table()), id, p) else old(Table()))
      ensures err == if ok then None else Some("update sync state")
    {
      if !ok {
        return Some("update sync state");
      }
      rows := map k | k in rows :: if rows[k].id == id then Patched(rows[k], p) else rows[k];
      return None;
    }

    /** Inserts a row, or overwrites every listed column of the one there is: afterwards nothing of an earlier
        synchronisation is left in it, and no other row has changed. */
    method UpsertContentSyncState(key: Key, owner: int, hash: string, now: int, ok: bool) returns (err: Verdict)
      modifies this`rows, this`ids
      ensures err == if ok then None else Some("create sync state")
      ensures !ok ==> Table() == old(Table())
      ensures ok ==> Table() == Upserted(old(Table()), key, owner, hash, now)
      ensures ok ==> key in rows && rows[key].status.Pending? && rows[key].document == "" && rows[key].dataset == "" &&
                     rows[key].hash == hash && rows[key].retryCount == 0 && rows[key].nextRetryTs.None?
      ensures ok && key in old(rows) ==>
                ids == old(ids) && rows[key].id == old(rows)[key].id && rows[key].owner == old(rows)[key].owner
      ensures ok && key !in old(rows) ==>
                ids == old(ids) + [key] && rows[key].id == |old(ids)| && rows[key].owner == owner
      ensures rows.Keys <= old(rows).Keys + {key}
      ensures forall k <- old(rows) :: k != key ==> k in rows && rows[k] == old(rows)[k]
    {
      if !ok {
        return Some("create sync state");
      }
      if key in rows {
        var row := rows[key];
        rows := rows[key := SyncState(row.id, row.key, row.owner, Pending, "", "", None, "", hash, 0, None,
                                      row.createdTs, now)];
      } else {
        rows := rows[key := SyncState(|ids|, key, owner, Pending, "", "", None, "", hash, 0, None, now, now)];
        ids := ids + [key];
      }
      return None;
    }

    /** Fails also when there is a row for the content already. */
    method CreateContentSyncState(key: Key, owner: int, now: int, ok: bool) returns (err: Verdict)
      modifies this`rows, this`ids
      ensures err == if ok && key !in old(rows) then None else Some("create sync state")
      ensures Table() == if err.None? then Inserted(old(Table()), key, owner, "", now) else old(Table())
    {
      if !ok || key in rows {
        return Some("create sync state");
      }
      rows := rows[key := SyncState(|ids|, key, owner, Pending, "", "", None, "", "", 0, None, now, now)];
      ids := ids + [key];
      return None;
    }

    method DeleteContentSyncState(key: Key, ok: bool) returns (err: Verdict)
      modifies this`rows
      ensures Table() == (if ok then Removed(old(Table()), key) else old(Table()))
      ensures err == if ok then None else Some("delete sync state")
    {
      if !ok {
        return Some("delete sync state");
      }
      rows := rows - {key};
      return None;
    }
  }

  class Client {
    var live: map<string, Document>
    var issued: map<string, Key>

    constructor ()
      ensures live == map[] && issued == map[]
    {
      live, issued := map[], map[];
    }

    ghost function Documents(): Remote
      reads this
    {
      Remote(live, issued)
    }

    method DeleteDocuments(dataset: string, id: string, ok: bool) returns (err: Verdict)
      modifies this`live
      ensures Documents() == DocumentDeleted(old(Documents()), dataset, id, ok)
    {
      if !ok {
        return Some("delete document");
      }
      if id in live && live[id].dataset == dataset {
        live := live - {id};
      }
      return None;
    }

    /** `id` is the service's answer. */
    method UploadDocument(doc: Document, id: Option<string>) returns (r: Result<string, string>)
      modifies this
      ensures Documents() == if id.Some? then DocumentUploaded(old(Documents()), id.value, doc) else old(Documents())
      ensures r == if id.Some? then Ok(id.value) else Err("upload document")
    {
      if id.None? {
        return Err("upload document");
      }
      live, issued := live[id.value := doc], issued[id.value := doc.key];
      return Ok(id.value);
    }
  }

  /** The state the sync code works on. */
  ghost function Here(s: Store, client: Client): World
    reads s, client
  {
    World(s.Table(), client.Documents(), s.contents)
  }

  // ----- the state tracker -----

  class StateTracker {
    const store: Store
    const cfg: Config

    constructor (store: Store, cfg: Config)
      ensures this.store == store && this.cfg == cfg
    {
      this.store, this.cfg := store, cfg;
    }

    method EnsurePendingState(key: Key, owner: int, c: Calls, ghost client: Client) returns (r: Result<bool, string>)
      modifies store`rows, store`ids
      ensures Here(store, client) == Ensured(old(Here(store, client)), key, owner, c).0
      ensures r == match Ensured(old(Here(store, client)), key, owner, c).1
                   case Some(e) => Err(e) case None => Ok(key !in old(store.rows))
    {
      var existing :- store.GetContentSyncState(key, c.readState);
      if existing.Some? {
        return Ok(false);
      }
      var err := store.CreateContentSyncState(key, owner, c.now, c.create);
      if err.Some? {
        return Err(err.value);
      }
      return Ok(true);
    }

    method MarkAsSynced(id: nat, dataset: string, document: string, now: int, ok: bool) returns (err: Verdict)
      modifies store`rows
      ensures store.Table() == if ok then Updated(old(store.Table()), id, SyncedPatch(dataset, document, now))
              else old(store.Table())
      ensures err == if ok then None else Some("update sync state")
    {
      err := store.UpdateContentSyncState(id, SyncedPatch(dataset, document, now), ok);
    }

    method MarkAsFailed(id: nat, retryCount: int, error: string, now: int, ok: bool) returns (err: Verdict)
      modifies store`rows
      ensures store.Table() == if ok then Updated(old(store.Table()), id, FailedPatch(cfg, retryCount, error, now))
              else old(store.Table())
    {
      err := store.UpdateContentSyncState(id, FailedPatch(cfg, retryCount, error, now), ok);
    }

    method MarkAsSkipped(id: nat, reason: string, now: int, ok: bool) returns (err: Verdict)
      modifies store`rows
      ensures store.Table() == if ok then Updated(old(store.Table()), id, SkippedPatch(reason, now))
              else old(store.Table())
    {
      err := store.UpdateContentSyncState(id, SkippedPatch(reason, now), ok);
    }

    method ResetForResync(id: nat, hash: string, c: Calls, ghost client: Client) returns (err: Verdict)
      modifies store`rows
      ensures (Here(store, client), err) == ResetRow(old(Here(store, client)), id, hash, c)
    {
      err := store.UpdateContentSyncState(id, ResetPatch(hash, c.now), c.mark);
    }

    /** Resets the listed failed and skipped rows, each with the hash it was listed with. */
    method ResetNonPendingStates(listed: seq<SyncState>, plan: Key -> Calls, ghost client: Client) returns (count: nat)
      modifies store`rows
      ensures Here(store, client) == AllReset(old(Here(store, client)), listed, plan).0
      ensures count == AllReset(old(Here(store, client)), listed, plan).1
    {
      hide ResetRow;
      count := 0;
      assert listed[..0] == [];
      for i := 0 to |listed|
        invariant (Here(store, client), count) == AllReset(old(Here(store, client)), listed[..i], plan)
      {
        assert listed[..i + 1][..i] == listed[..i];
        var err := ResetForResync(listed[i].id, listed[i].hash, plan(listed[i].key), client);
        if err.None? {
          count := count + 1;
        }
      }
      assert listed[..|listed|] == listed;
    }

    /** Of the listed failed rows, those whose retry is due. */
    method ListRetryableStates(listed: seq<SyncState>, now: int) returns (retryable: seq<SyncState>)
      ensures retryable == Due(cfg, listed, now)
    {
      retryable := [];
      assert listed[..0] == [];
      for i := 0 to |listed|
        invariant retryable == Due(cfg, listed[..i], now)
      {
        assert listed[..i + 1][..i] == listed[..i];
        if Retryable(cfg, listed[i], now) {
          retryable := retryable + [listed[i]];
        }
      }
      assert listed[..|listed|] == listed;
    }
  }

  function AllReset(w: World, listed: seq<SyncState>, plan: Key -> Calls): (World, nat) {
    if listed == [] then (w, 0)
    else
      var n := |listed| - 1;
      var (w1, count) := AllReset(w, listed[..n], plan);
      var (w2, err) := ResetRow(w1, listed[n].id, listed[n].hash, plan(listed[n].key));
      (w2, if err.None? then count + 1 else count)
  }

  function Due(cfg: Config, listed: seq<SyncState>, now: int): (r: seq<SyncState>)
    ensures forall x :: x in r <==> x in listed && Retryable(cfg, x, now)
  {
    if listed == [] then []
    else
      var n := |listed| - 1;
      Due(cfg, listed[..n], now) + if Retryable(cfg, listed[n], now) then [listed[n]] else []
  }

  // ----- the two syncers -----

  class MemoSyncer {
    const store: Store
    const stateTracker: StateTracker

    constructor (store: Store, tracker: StateTracker)
      ensures this.store == store && stateTracker == tracker
    {
      this.store, stateTracker := store, tracker;
    }

    method SyncMemo(uid: string, dataset: string, client: Client, c: Calls) returns (err: Verdict)
      requires stateTracker.store == store
      modifies store`rows, store`ids, client
      ensures (Here(store, client), err) == SyncedMemo(stateTracker.cfg, old(Here(store, client)), uid, dataset, c)
    {
      hide Updated, Upserted, SyncedPatch;
      var key := Key(MemoType, uid);
      if !c.load {
        return Some("load memo");
      }
      if key !in store.contents || !store.contents[key].Memo? {
        return Some("memo does not exist");
      }
      var memo := store.contents[key];
      var contentHash := stateTracker.cfg.hash(memo.text);
      var got := store.GetContentSyncState(key, c.readState);
      if got.Err? {
        return Some("read sync state");
      }
      var syncState := got.value;
      if syncState.Some? && syncState.value.status.Synced? {
        if syncState.value.hash == contentHash {
          return None;
        }
      }
      if syncState.Some? && syncState.value.document != "" {
        var _ := client.DeleteDocuments(dataset, syncState.value.document, c.delete);
      }
      var docInfo := client.UploadDocument(Document(dataset, key, memo.text), c.upload);
      if docInfo.Err? {
        return Some(docInfo.error);
      }
      err := RecordUpload(store, stateTracker, key, memo.creator, dataset, docInfo.value, contentHash, c);
    }

    method DeleteMemoFromRAGFlow(uid: string, client: Client, c: Calls) returns (err: Verdict)
      modifies store`rows, client`live
      ensures (Here(store, client), err) == DeletedContent(old(Here(store, client)), Key(MemoType, uid), c)
    {
      err := DeleteContent(store, Key(MemoType, uid), client, c);
    }

    method MarkMemoForResync(uid: string, newContent: string, c: Calls, ghost client: Client) returns (err: Verdict)
      requires stateTracker.store == store
      modifies store`rows, store`ids
      ensures (Here(store, client), err)
              == MarkedForResync(stateTracker.cfg, old(Here(store, client)), uid, newContent, c)
    {
      hide Updated, Upserted;
      var key := Key(MemoType, uid);
      var got := store.GetContentSyncState(key, c.readState);
      if got.Err? {
        return Some("read sync state");
      }
      var newHash := stateTracker.cfg.hash(newContent);
      if got.value.None? {
        if !c.load {
          return Some("load memo");
        }
        if key !in store.contents || !store.contents[key].Memo? {
          return Some("memo does not exist");
        }
        err := store.UpsertContentSyncState(key, store.contents[key].creator, newHash, c.now, c.create);
        return;
      }
      err := stateTracker.ResetForResync(got.value.value.id, newHash, c, client);
    }

    /** The listed pending memos; returns how many succeeded and how many failed. */
    method SyncPendingMemos(listed: seq<SyncState>, resources: Key -> Option<string>, client: Client,
                            plan: Key -> Calls)
        returns (success: nat, fail: nat)
      requires stateTracker.store == store
      modifies store`rows, store`ids, client
      ensures (Here(store, client), success, fail)
              == AllSynced(stateTracker.cfg, old(Here(store, client)), OfType(MemoType, listed), resources, plan)
    {
      hide SyncedContent, FailedPatch, SyncedMemo, OfType, Updated;
      ghost var start := old(Here(store, client));
      var memoStates := FilterStates(MemoType, listed);
      OfTypeKeys(MemoType, listed);
      success, fail := 0, 0;
      assert memoStates[..0] == [];
      for i := 0 to |memoStates|
        invariant (Here(store, client), success, fail)
                  == AllSynced(stateTracker.cfg, start, memoStates[..i], resources, plan)
      {
        var state := memoStates[i];
        var dataset, c := resources(state.key), plan(state.key);
        AllSyncedNext(stateTracker.cfg, start, memoStates, i, resources, plan);
        if dataset.None? {
          fail := fail + 1;
          continue;
        }
        MemoContent(stateTracker.cfg, Here(store, client), state.key, dataset.value, c);
        var err := SyncMemo(state.key.uid, dataset.value, client, c);
        if err.Some? {
          var _ := stateTracker.MarkAsFailed(state.id, state.retryCount, err.value, c.now, c.markFailed);
          fail := fail + 1;
          continue;
        }
        success := success + 1;
      }
      assert memoStates[..|memoStates|] == memoStates;
    }
  }

  lemma MemoContent(cfg: Config, w: World, key: Key, dataset: string, c: Calls)
    requires key.ctype.MemoType?
    ensures SyncedContent(cfg, w, key, dataset, c) == SyncedMemo(cfg, w, key.uid, dataset, c)
  {}

  lemma AttachmentContent(cfg: Config, w: World, key: Key, dataset: string, c: Calls)
    requires key.ctype.AttachmentType?
    ensures SyncedContent(cfg, w, key, dataset, c) == SyncedAttachment(cfg, w, key.uid, dataset, c)
  {}

  function OfType(t: ContentType, listed: seq<SyncState>): seq<SyncState> {
    if listed == [] then []
    else
      var n := |listed| - 1;
      OfType(t, listed[..n]) + if listed[n].key.ctype == t then [listed[n]] else []
  }

  lemma {:induction false} OfTypeKeys(t: ContentType, listed: seq<SyncState>)
    ensures forall x :: x in OfType(t, listed) <==> x in listed && x.key.ctype == t
  {
    if listed != [] {
      var n := |listed| - 1;
      OfTypeKeys(t, listed[..n]);
      assert listed == listed[..n] + [listed[n]];
    }
  }

  method FilterStates(t: ContentType, listed: seq<SyncState>) returns (states: seq<SyncState>)
    ensures states == OfType(t, listed)
  {
    states := [];
    assert listed[..0] == [];
    for i := 0 to |listed|
      invariant states == OfType(t, listed[..i])
    {
      assert listed[..i + 1][..i] == listed[..i];
      if listed[i].key.ctype == t {
        states := states + [listed[i]];
      }
    }
    assert listed[..|listed|] == listed;
  }

  /** The listed rows one after the other, with the counts of successes and failures. */
  function AllSynced(cfg: Config, w: World, listed: seq<SyncState>, resources: Key -> Option<string>,
                     plan: Key -> Calls)
    : (World, nat, nat)
  {
    if listed == [] then (w, 0, 0)
    else
      var n := |listed| - 1;
      var (w1, success, fail) := AllSynced(cfg, w, listed[..n], resources, plan);
      var (w2, ok) := SyncedListed(cfg, w1, listed[n], resources(listed[n].key), plan(listed[n].key));
      (w2, if ok then success + 1 else success, if ok then fail else fail + 1)
  }

  lemma AllSyncedNext(cfg: Config, w: World, listed: seq<SyncState>, i: nat, resources: Key -> Option<string>,
                      plan: Key -> Calls)
    requires i < |listed|
    ensures var (w1, success, fail) := AllSynced(cfg, w, listed[..i], resources, plan);
            var (w2, ok) := SyncedListed(cfg, w1, listed[i], resources(listed[i].key), plan(listed[i].key));
            AllSynced(cfg, w, listed[..i + 1], resources, plan)
            == (w2, if ok then success + 1 else success, if ok then fail else fail + 1)
  {
    hide SyncedListed;
    assert listed[..i + 1][..i] == listed[..i];
  }

  /** The end of a synchronisation: row, mark, hash. */
  method RecordUpload(store: Store, tracker: StateTracker, key: Key, creator: int, dataset: string, document: string,
                      hash: string, c: Calls) returns (err: Verdict)
    requires tracker.store == store
    modifies store`rows, store`ids
    ensures (store.Table(), err) == Recorded(old(store.Table()), key, creator, dataset, document, hash, c)
  {
    hide Updated, SyncedPatch;
    if key !in store.rows {
      var created := store.UpsertContentSyncState(key, creator, hash, c.now, c.create);
      if created.Some? {
        return created;
      }
    }
    var id := store.rows[key].id;
    err := tracker.MarkAsSynced(id, dataset, document, c.now, c.mark);
    if err.Some? {
      return;
    }
    var _ := store.UpdateContentSyncState(id, NOTHING.(hash := Some(hash)), c.rehash);
  }

  method DeleteContent(store: Store, key: Key, client: Client, c: Calls) returns (err: Verdict)
    modifies store`rows, client`live
    ensures (Here(store, client), err) == DeletedContent(old(Here(store, client)), key, c)
  {
    var got := store.GetContentSyncState(key, c.readState);
    if got.Err? {
      return Some("read sync state");
    }
    if got.value.None? {
      return None;
    }
    var syncState := got.value.value;
    if syncState.document != "" && syncState.dataset != "" {
      var _ := client.DeleteDocuments(syncState.dataset, syncState.document, c.delete);
    }
    err := store.DeleteContentSyncState(key, c.mark);
  }

  class AttachmentSyncer {
    const store: Store
    const stateTracker: StateTracker

    constructor (store: Store, tracker: StateTracker)
      ensures this.store == store && stateTracker == tracker
    {
      this.store, stateTracker := store, tracker;
    }

    method SyncAttachment(uid: string, dataset: string, client: Client, c: Calls) returns (err: Verdict)
      requires stateTracker.store == store
      modifies store`rows, store`ids, client
      ensures (Here(store, client), err)
              == SyncedAttachment(stateTracker.cfg, old(Here(store, client)), uid, dataset, c)
    {
      hide Updated, Upserted, SyncedPatch, SkippedPatch;
      var key := Key(AttachmentType, uid);
      if !c.load {
        return Some("load attachment");
      }
      if key !in store.contents || !store.contents[key].Attachment? {
        return Some("attachment does not exist");
      }
      var attachment := store.contents[key];
      if attachment.mime !in PARSEABLE {
        var got := store.GetContentSyncState(key, c.readState);
        if got.Ok? && got.value.Some? {
          var _ := stateTracker.MarkAsSkipped(got.value.value.id, SkipReason(attachment.mime), c.now, c.mark);
        }
        return None;
      }
      if !c.readBlob {
        return Some("load attachment content");
      }
      if attachment.blob == "" {
        return Some("attachment is empty");
      }
      var got := store.GetContentSyncState(key, c.readState);
      if got.Err? {
        return Some("read sync state");
      }
      var syncState := got.value;
      var contentHash := stateTracker.cfg.hash(attachment.blob);
      if syncState.Some? && syncState.value.status.Synced? {
        if syncState.value.hash == contentHash {
          return None;
        }
      }
      if syncState.Some? && syncState.value.document != "" {
        var _ := client.DeleteDocuments(dataset, syncState.value.document, c.delete);
      }
      var docInfo := client.UploadDocument(Document(dataset, key, attachment.blob), c.upload);
      if docInfo.Err? {
        return Some(docInfo.error);
      }
      err := RecordUpload(store, stateTracker, key, attachment.creator, dataset, docInfo.value, contentHash, c);
    }

    method DeleteAttachmentFromRAGFlow(uid: string, client: Client, c: Calls) returns (err: Verdict)
      modifies store`rows, client`live
      ensures (Here(store, client), err) == DeletedContent(old(Here(store, client)), Key(AttachmentType, uid), c)
    {
      err := DeleteContent(store, Key(AttachmentType, uid), client, c);
    }

    method SyncPendingAttachments(listed: seq<SyncState>, resources: Key -> Option<string>, client: Client,
                                  plan: Key -> Calls)
        returns (success: nat, fail: nat)
      requires stateTracker.store == store
      modifies store`rows, store`ids, client
      ensures (Here(store, client), success, fail)
              == AllSynced(stateTracker.cfg, old(Here(store, client)), OfType(AttachmentType, listed), resources, plan)
    {
      hide SyncedContent, FailedPatch, SyncedAttachment, OfType, Updated;
      ghost var start := old(Here(store, client));
      var states := FilterStates(AttachmentType, listed);
      OfTypeKeys(AttachmentType, listed);
      success, fail := 0, 0;
      assert states[..0] == [];
      for i := 0 to |states|
        invariant (Here(store, client), success, fail)
                  == AllSynced(stateTracker.cfg, start, states[..i], resources, plan)
      {
        var state := states[i];
        var dataset, c := resources(state.key), plan(state.key);
        AllSyncedNext(stateTracker.cfg, start, states, i, resources, plan);
        if dataset.None? {
          fail := fail + 1;
          continue;
        }
        AttachmentContent(stateTracker.cfg, Here(store, client), state.key, dataset.value, c);
        var err := SyncAttachment(state.key.uid, dataset.value, client, c);
        if err.Some? {
          var _ := stateTracker.MarkAsFailed(state.id, state.retryCount, err.value, c.now, c.markFailed);
          fail := fail + 1;
          continue;
        }
        success := success + 1;
      }
      assert states[..|states|] == states;
    }
  }
}
