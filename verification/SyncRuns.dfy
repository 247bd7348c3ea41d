/** What holds over every run of synchronisation steps that are serialised per content. */
module SyncRuns {
  import opened Options
  import opened SyncModel

  /** One atomic step.  `Sync` comes from an event, `Listed` from a batch or a retry, with the row as it was
      when it was listed; `Edit` is a user creating, changing or removing a content. */
  datatype Step =
    | Sync(key: Key, dataset: string, c: Calls)
    | Listed(listed: SyncState, resource: Option<string>, c: Calls)
    | Delete(key: Key, c: Calls)
    | Ensure(key: Key, owner: int, c: Calls)
    | Reset(listed: SyncState, c: Calls)
    | Resync(uid: string, text: string, c: Calls)
    | Edit(key: Key, content: Option<Content>)

  function KeyOf(s: Step): Key {
    match s
    case Listed(listed, _, _) => listed.key
    case Reset(listed, _) => listed.key
    case Resync(uid, _, _) => Key(MemoType, uid)
    case Sync(key, _, _) => key
    case Delete(key, _) => key
    case Ensure(key, _, _) => key
    case Edit(key, _) => key
  }

  function Apply(cfg: Config, w: World, s: Step): World {
    match s
    case Sync(key, dataset, c) => SyncedContent(cfg, w, key, dataset, c).0
    case Listed(listed, resource, c) => SyncedListed(cfg, w, listed, resource, c).0
    case Delete(key, c) => DeletedContent(w, key, c).0
    case Ensure(key, owner, c) => Ensured(w, key, owner, c).0
    case Reset(listed, c) => ResetRow(w, listed.id, listed.hash, c).0
    case Resync(uid, text, c) => MarkedForResync(cfg, w, uid, text, c).0
    case Edit(key, content) => w.(contents := if content.Some? then w.contents[key := content.value]
                                  else w.contents - {key})
  }

  // ----- the invariant, content by content -----

  ghost predicate RowOk(w: World, home: Key -> string, k: Key) {
    k in w.db.rows ==>
      var r := w.db.rows[k];
      r.key == k && r.id < |w.db.ids| && w.db.ids[r.id] == k &&
      (r.document != "" ==> r.document in w.remote.issued && w.remote.issued[r.document] == k && r.dataset == home(k))
  }

  /** A live document of the content is the one its row records. */
  ghost predicate LiveOk(w: World, home: Key -> string, k: Key) {
    forall d <- w.remote.live :: w.remote.live[d].key == k ==>
      d != "" && home(k) != "" && k in w.db.rows && w.db.rows[k].document == d && w.remote.live[d].dataset == home(k)
  }

  ghost predicate IssuedOk(r: Remote) {
    "" !in r.issued && forall d <- r.live :: d in r.issued && r.issued[d] == r.live[d].key
  }

  ghost predicate Inv(w: World, home: Key -> string) {
    IssuedOk(w.remote) && (forall k :: RowOk(w, home, k)) && (forall k :: LiveOk(w, home, k))
  }

  /** A synced row's document is live and was built from content with the row's hash. */
  ghost predicate SyncedOk(cfg: Config, w: World, k: Key) {
    k in w.db.rows && w.db.rows[k].status.Synced? ==>
      var r := w.db.rows[k];
      r.document in w.remote.live && w.remote.live[r.document].key == k &&
      cfg.hash(w.remote.live[r.document].text) == r.hash
  }

  // ----- what a run may assume of a step -----

  predicate RecordsLive(w: World, k: Key) {
    k in w.db.rows && w.db.rows[k].document != "" && w.db.rows[k].document in w.remote.live
  }

  predicate FreshUpload(w: World, c: Calls) {
    c.upload.Some? ==> c.upload.value != "" && c.upload.value !in w.remote.issued
  }

  predicate WritesOk(c: Calls) { c.create && c.mark && c.rehash && c.markFailed }

  /** Deletes of live documents succeed, uploads get fresh ids, local writes succeed, a content stays in its
      data set, which has a name, and a listed row was once in the table. */
  predicate Fair(w: World, home: Key -> string, s: Step) {
    match s
    case Sync(key, dataset, c) => dataset == home(key) != "" && WritesOk(c) && FreshUpload(w, c) &&
      (RecordsLive(w, key) ==> c.delete)
    case Listed(listed, resource, c) =>
      listed.id < |w.db.ids| && w.db.ids[listed.id] == listed.key &&
      (resource.Some? ==> resource.value == home(listed.key) != "") && WritesOk(c) && FreshUpload(w, c) &&
      (RecordsLive(w, listed.key) ==> c.delete)
    case Delete(key, c) => WritesOk(c) && (RecordsLive(w, key) ==> c.delete)
    case Reset(listed, c) => listed.id < |w.db.ids| && w.db.ids[listed.id] == listed.key
    case _ => true
  }

  // ----- updates by id -----

  ghost predicate RowsOk(db: Db) {
    forall k <- db.rows :: db.rows[k].key == k && db.rows[k].id < |db.ids| && db.ids[db.rows[k].id] == k
  }

  /** An update touches only the content its row id was handed out for, and only if that row still exists. */
  lemma UpdatedIsLocal(db: Db, id: nat, p: Patch)
    requires RowsOk(db) && id < |db.ids|
    ensures var k := db.ids[id];
            Updated(db, id, p) ==
            if k in db.rows && db.rows[k].id == id then db.(rows := db.rows[k := Patched(db.rows[k], p)]) else db
  {
    hide Patched;
    var k, u := db.ids[id], Updated(db, id, p).rows;
    assert u.Keys == db.rows.Keys;
    if k in db.rows && db.rows[k].id == id {
      assert u == db.rows[k := Patched(db.rows[k], p)];
    } else {
      assert u == db.rows;
    }
  }

  /** The two worlds differ at most in the row and the documents of one content. */
  ghost predicate Local(w: World, w': World, key: Key) {
    w.db.ids <= w'.db.ids &&
    (forall k | k != key ::
       (k in w'.db.rows <==> k in w.db.rows) && (k in w.db.rows ==> w'.db.rows[k] == w.db.rows[k])) &&
    (forall d <- w'.remote.live :: w'.remote.live[d].key != key ==>
     d in w.remote.live && w.remote.live[d] == w'.remote.live[d]) &&
    (forall d <- w.remote.live :: w.remote.live[d].key != key ==>
     d in w'.remote.live && w.remote.live[d] == w'.remote.live[d]) &&
    (forall d <- w.remote.issued :: d in w'.remote.issued && w'.remote.issued[d] == w.remote.issued[d])
  }

  lemma LocalKeepsInv(w: World, w': World, home: Key -> string, key: Key)
    requires Inv(w, home) && Local(w, w', key)
    requires RowOk(w', home, key) && LiveOk(w', home, key) && IssuedOk(w'.remote)
    ensures Inv(w', home)
  {
    forall k ensures RowOk(w', home, k) { assert RowOk(w, home, k); }
    forall k ensures LiveOk(w', home, k) { assert LiveOk(w, home, k); }
  }

  lemma LocalKeepsSynced(cfg: Config, w: World, w': World, key: Key)
    requires (forall k :: SyncedOk(cfg, w, k)) && Local(w, w', key) && SyncedOk(cfg, w', key)
    ensures forall k :: SyncedOk(cfg, w', k)
  {
    forall k ensures SyncedOk(cfg, w', k) { assert SyncedOk(cfg, w, k); }
  }

  lemma InvRows(w: World, home: Key -> string)
    requires Inv(w, home)
    ensures RowsOk(w.db)
  {
    forall k | k in w.db.rows
      ensures w.db.rows[k].key == k && w.db.rows[k].id < |w.db.ids| && w.db.ids[w.db.rows[k].id] == k {
      assert RowOk(w, home, k);
    }
  }

  // ----- steps that leave the documents alone -----

  /** The step `w` to `w'` keeps the invariant of its content. */
  ghost predicate Keeps(w: World, w': World, home: Key -> string, key: Key) {
    Local(w, w', key) && RowOk(w', home, key) && LiveOk(w', home, key) && IssuedOk(w'.remote)
  }

  lemma SameKeeps(w: World, home: Key -> string, key: Key)
    requires Inv(w, home)
    ensures Keeps(w, w, home, key)
  {
    assert RowOk(w, home, key) && LiveOk(w, home, key);
  }

  lemma PatchKeeps(cfg: Config, w: World, home: Key -> string, id: nat, p: Patch)
    requires Inv(w, home) && id < |w.db.ids| && p.document.None? && p.dataset.None?
    ensures var w' := w.(db := Updated(w.db, id, p));
            Keeps(w, w', home, w.db.ids[id]) &&
            (p.status.Some? && !p.status.value.Synced? && SyncedOk(cfg, w, w.db.ids[id]) ==>
             SyncedOk(cfg, w', w.db.ids[id]))
  {
    var key := w.db.ids[id];
    InvRows(w, home);
    UpdatedIsLocal(w.db, id, p);
    assert RowOk(w, home, key) && LiveOk(w, home, key);
  }

  lemma InsertKeeps(cfg: Config, w: World, home: Key -> string, key: Key, owner: int, hash: string, now: int)
    requires Inv(w, home) && key !in w.db.rows
    ensures var w' := w.(db := Inserted(w.db, key, owner, hash, now)); Keeps(w, w', home, key) && SyncedOk(cfg, w', key)
  {
    assert RowOk(w, home, key) && LiveOk(w, home, key);
  }

  // ----- steps that delete and upload -----

  lemma DeleteClears(w: World, home: Key -> string, key: Key, ok: bool)
    requires Inv(w, home) && key in w.db.rows && w.db.rows[key].document != "" && (RecordsLive(w, key) ==> ok)
    ensures var r := DocumentDeleted(w.remote, home(key), w.db.rows[key].document, ok);
            r.issued == w.remote.issued && (forall d <- r.live :: r.live[d].key != key) &&
            (forall d <- r.live :: d in w.remote.live && r.live[d] == w.remote.live[d]) &&
            (forall d <- w.remote.live :: w.remote.live[d].key != key ==> d in r.live)
  {
    assert RowOk(w, home, key) && LiveOk(w, home, key);
  }

  /** Before an upload no live document of the content is left. */
  lemma AfterDeleteClears(w: World, home: Key -> string, key: Key, c: Calls)
    requires Inv(w, home) && (RecordsLive(w, key) ==> c.delete)
    ensures var r := AfterDelete(w, home(key), Row(w.db, key), c);
            r.issued == w.remote.issued && (forall d <- r.live :: r.live[d].key != key) &&
            (forall d <- r.live :: d in w.remote.live && r.live[d] == w.remote.live[d]) &&
            (forall d <- w.remote.live :: w.remote.live[d].key != key ==> d in r.live)
  {
    if key in w.db.rows && w.db.rows[key].document != "" {
      DeleteClears(w, home, key, c.delete);
    } else {
      assert LiveOk(w, home, key);
    }
  }

  /** The bookkeeping leaves a synced row that records the new document. */
  lemma RecordedRow(db: Db, key: Key, creator: int, dataset: string, document: string, hash: string, c: Calls)
    requires RowsOk(db) && WritesOk(c)
    ensures var (db', err) := Recorded(db, key, creator, dataset, document, hash, c);
            err.None? && key in db'.rows && db.ids <= db'.ids && db'.rows == db.rows[key := db'.rows[key]] &&
            var r := db'.rows[key];
            r.key == key && r.id < |db'.ids| && db'.ids[r.id] == key && r.status.Synced? && r.document == document &&
            r.dataset == dataset && r.hash == hash
  {
    hide Updated;
    var db1 := if key in db.rows then db else Upserted(db, key, creator, hash, c.now);
    assert RowsOk(db1);
    var id := db1.rows[key].id;
    UpdatedIsLocal(db1, id, SyncedPatch(dataset, document, c.now));
    var db2 := Updated(db1, id, SyncedPatch(dataset, document, c.now));
    assert RowsOk(db2);
    UpdatedIsLocal(db2, id, NOTHING.(hash := Some(hash)));
  }

  /** An upload replaces whatever was there: one live document, recorded by a synced row. */
  lemma PushKeeps(cfg: Config, w: World, home: Key -> string, key: Key, text: string, creator: int, c: Calls)
    requires home(key) != ""
    requires Inv(w, home) && WritesOk(c) && FreshUpload(w, c) && (RecordsLive(w, key) ==> c.delete)
    ensures var (w', err) := Pushed(cfg, w, key, home(key), text, creator, c);
            Keeps(w, w', home, key) && (err.None? <==> c.upload.Some?) && (err.None? ==> SyncedOk(cfg, w', key))
    ensures c.upload.None? ==> Pushed(cfg, w, key, home(key), text, creator, c).0.db == w.db
  {
    hide Recorded, DocumentDeleted, AfterDelete;
    InvRows(w, home);
    AfterDeleteClears(w, home, key, c);
    assert RowOk(w, home, key);
    var (w', err) := Pushed(cfg, w, key, home(key), text, creator, c);
    if c.upload.Some? {
      RecordedRow(w.db, key, creator, home(key), c.upload.value, cfg.hash(text), c);
      UploadedKeeps(cfg, w, w', home, key, AfterDelete(w, home(key), Row(w.db, key), c), c.upload.value, text);
    }
  }

  lemma UploadedKeeps(cfg: Config, w: World, w': World, home: Key -> string, key: Key, cleared: Remote, id: string,
                      text: string)
    requires Inv(w, home) && id != "" && id !in w.remote.issued && home(key) != ""
    requires cleared.issued == w.remote.issued && (forall d <- cleared.live :: cleared.live[d].key != key)
    requires forall d <- cleared.live :: d in w.remote.live && cleared.live[d] == w.remote.live[d]
    requires forall d <- w.remote.live :: w.remote.live[d].key != key ==> d in cleared.live
    requires w'.remote == DocumentUploaded(cleared, id, Document(home(key), key, text))
    requires key in w'.db.rows && w.db.ids <= w'.db.ids && w'.db.rows == w.db.rows[key := w'.db.rows[key]]
    requires var r := w'.db.rows[key];
             r.key == key && r.id < |w'.db.ids| && w'.db.ids[r.id] == key && r.status.Synced? && r.document == id &&
             r.dataset == home(key) && r.hash == cfg.hash(text)
    ensures Keeps(w, w', home, key) && SyncedOk(cfg, w', key)
  {
    assert id !in w.remote.live && id !in cleared.live;
  }

  /** What one synchronisation can end as: an upload tried, the row marked as skipped, or nothing done. */
  lemma SyncedContentCases(cfg: Config, w: World, key: Key, dataset: string, c: Calls)
    ensures Pushes(cfg, w, key, c) ==>
              SyncedContent(cfg, w, key, dataset, c)
                == Pushed(cfg, w, key, dataset, TextOf(w.contents[key]), w.contents[key].creator, c)
    ensures Skips(w, key, c) ==>
              SyncedContent(cfg, w, key, dataset, c)
              == (w.(db := Updated(w.db, w.db.rows[key].id, SkippedPatch(SkipReason(w.contents[key].mime), c.now))),
                  None)
    ensures !Pushes(cfg, w, key, c) && !Skips(w, key, c) ==> SyncedContent(cfg, w, key, dataset, c).0 == w
  {
    hide Updated, Pushed;
  }

  predicate Skips(w: World, key: Key, c: Calls) {
    c.load && c.readState && c.mark && key in w.db.rows && key in w.contents && key.ctype.AttachmentType? &&
    w.contents[key].Attachment? && w.contents[key].mime !in PARSEABLE
  }

  function TextOf(content: Content): string { if content.Memo? then content.text else content.blob }

  /** The synchronisation gets as far as the remote store. */
  predicate Pushes(cfg: Config, w: World, key: Key, c: Calls) {
    c.load && key in w.contents && c.readState && !Unchanged(Row(w.db, key), cfg.hash(TextOf(w.contents[key]))) &&
    match key.ctype
    case MemoType => w.contents[key].Memo?
    case AttachmentType =>
      w.contents[key].Attachment? && w.contents[key].mime in PARSEABLE && c.readBlob && w.contents[key].blob != ""
  }

  // ----- every step -----

  /** The row of the content is synced and the upload that was to replace its document fails, so that the
      document is deleted and the row keeps naming it. */
  predicate Strands(cfg: Config, w: World, key: Key, c: Calls) {
    Pushes(cfg, w, key, c) && c.upload.None? && key in w.db.rows && w.db.rows[key].status.Synced?
  }

  lemma SyncKeeps(cfg: Config, w: World, home: Key -> string, key: Key, c: Calls)
    requires home(key) != ""
    requires Inv(w, home) && WritesOk(c) && FreshUpload(w, c) && (RecordsLive(w, key) ==> c.delete)
    ensures var (w', err) := SyncedContent(cfg, w, key, home(key), c);
            Keeps(w, w', home, key) &&
            (SyncedOk(cfg, w, key) ==> (SyncedOk(cfg, w', key) <==> !Strands(cfg, w, key, c))) &&
            (Strands(cfg, w, key, c) ==> err.Some? && w'.db == w.db)
  {
    hide SyncedContent, Pushed, Updated, Inv, Keeps, RowOk, LiveOk;
    SyncedContentCases(cfg, w, key, home(key), c);
    SameKeeps(w, home, key);
    if Pushes(cfg, w, key, c) {
      PushKeeps(cfg, w, home, key, TextOf(w.contents[key]), w.contents[key].creator, c);
      if c.upload.None? { FailedPush(cfg, w, home, key, TextOf(w.contents[key]), w.contents[key].creator, c); }
    } else if Skips(w, key, c) {
      assert RowOk(w, home, key) by { InvAt(w, home, key); }
      SkipKeeps(cfg, w, home, key, SkipReason(w.contents[key].mime), c.now);
    }
  }

  lemma InvAt(w: World, home: Key -> string, key: Key)
    requires Inv(w, home)
    ensures RowOk(w, home, key) && LiveOk(w, home, key)
  {}

  lemma SkipKeeps(cfg: Config, w: World, home: Key -> string, key: Key, reason: string, now: int)
    requires Inv(w, home) && key in w.db.rows
    ensures var w' := w.(db := Updated(w.db, w.db.rows[key].id, SkippedPatch(reason, now)));
            Keeps(w, w', home, key) && (SyncedOk(cfg, w, key) ==> SyncedOk(cfg, w', key))
  {
    hide Updated, Keeps, Inv;
    InvAt(w, home, key);
    PatchKeeps(cfg, w, home, w.db.rows[key].id, SkippedPatch(reason, now));
  }

  lemma FailedPush(cfg: Config, w: World, home: Key -> string, key: Key, text: string, creator: int, c: Calls)
    requires Inv(w, home) && c.upload.None? && (RecordsLive(w, key) ==> c.delete)
    ensures SyncedOk(cfg, Pushed(cfg, w, key, home(key), text, creator, c).0, key) <==>
            !(key in w.db.rows && w.db.rows[key].status.Synced?)
  {
    hide Inv, AfterDelete, Recorded;
    AfterDeleteClears(w, home, key, c);
  }

  lemma KeepsTwice(w: World, w1: World, w2: World, home: Key -> string, key: Key)
    requires Keeps(w, w1, home, key) && Keeps(w1, w2, home, key)
    ensures Keeps(w, w2, home, key)
  {}

  /** The step leaves a synced row without its document: an upload fails on the event path, or in a batch
      whose listing names a row that was deleted and made anew since. */
  predicate LosesDocument(cfg: Config, w: World, s: Step) {
    match s
    case Sync(key, _, c) => Strands(cfg, w, key, c)
    case Listed(listed, resource, c) => resource.Some? && Strands(cfg, w, listed.key, c) &&
      w.db.rows[listed.key].id != listed.id
    case _ => false
  }

  lemma ListedKeeps(cfg: Config, w: World, home: Key -> string, s: Step)
    requires Inv(w, home) && s.Listed? && s.resource.Some? && Fair(w, home, s)
    ensures Keeps(w, Apply(cfg, w, s), home, KeyOf(s))
    ensures SyncedOk(cfg, w, KeyOf(s)) ==> (SyncedOk(cfg, Apply(cfg, w, s), KeyOf(s)) <==> !LosesDocument(cfg, w, s))
  {
    hide SyncedContent, Updated, Inv, Keeps, Strands, RowOk, LiveOk, FailedPatch;
    var key, c := s.listed.key, s.c;
    SyncKeeps(cfg, w, home, key, c);
    var (w1, err) := SyncedContent(cfg, w, key, home(key), c);
    if err.Some? {
      KeepsGivesInv(w, w1, home, key);
      var p := FailedPatch(cfg, s.listed.retryCount, err.value, c.now);
      FailedPatchShape(cfg, s.listed.retryCount, err.value, c.now);
      PatchKeeps(cfg, w1, home, s.listed.id, p);
      KeepsTwice(w, w1, w1.(db := Updated(w1.db, s.listed.id, p)), home, key);
      InvRows(w1, home);
      UpdatedIsLocal(w1.db, s.listed.id, p);
      if Strands(cfg, w, key, c) { assert key in w.db.rows by { StrandsSynced(cfg, w, key, c); } }
    }
  }

  lemma StrandsSynced(cfg: Config, w: World, key: Key, c: Calls)
    requires Strands(cfg, w, key, c)
    ensures key in w.db.rows && w.db.rows[key].status.Synced?
  {}

  lemma FailedPatchShape(cfg: Config, retryCount: int, error: string, now: int)
    ensures var p := FailedPatch(cfg, retryCount, error, now);
            p.status == Some(Failed) && p.document.None? && p.dataset.None? && p.hash.None?
  {}

  lemma KeepsGivesInv(w: World, w': World, home: Key -> string, key: Key)
    requires Inv(w, home) && Keeps(w, w', home, key)
    ensures Inv(w', home) && w.db.ids <= w'.db.ids
  {
    LocalKeepsInv(w, w', home, key);
  }

  lemma DeletedKeeps(cfg: Config, w: World, home: Key -> string, key: Key, c: Calls)
    requires Inv(w, home) && WritesOk(c) && (RecordsLive(w, key) ==> c.delete)
    ensures var w' := DeletedContent(w, key, c).0;
            Keeps(w, w', home, key) && (SyncedOk(cfg, w, key) ==> SyncedOk(cfg, w', key))
  {
    hide DocumentDeleted, Inv;
    InvAt(w, home, key);
    assert IssuedOk(w.remote) by { InvIssued(w, home); }
    if c.readState && key in w.db.rows {
      if w.db.rows[key].document != "" && w.db.rows[key].dataset != "" { DeleteClears(w, home, key, c.delete); }
    }
  }

  lemma InvIssued(w: World, home: Key -> string)
    requires Inv(w, home)
    ensures IssuedOk(w.remote)
  {}

  /** Every fair step touches one content only and keeps its invariant; its synced row keeps a live document of
      its hash exactly when no upload failure strands it. */
  lemma StepKeeps(cfg: Config, w: World, home: Key -> string, s: Step)
    requires Inv(w, home) && Fair(w, home, s)
    ensures Keeps(w, Apply(cfg, w, s), home, KeyOf(s))
    ensures SyncedOk(cfg, w, KeyOf(s)) ==> (SyncedOk(cfg, Apply(cfg, w, s), KeyOf(s)) <==> !LosesDocument(cfg, w, s))
  {
    hide SyncedContent, Updated, Inv, Keeps, Strands, RowOk, LiveOk, DeletedContent, SyncedListed, SyncedOk;
    var key := KeyOf(s);
    SameKeeps(w, home, key);
    match s {
      case Sync(_, _, c) => SyncKeeps(cfg, w, home, key, c);
      case Listed(listed, resource, c) =>
        if resource.Some? { ListedKeeps(cfg, w, home, s); } else { UnresolvedIsNothing(cfg, w, listed, c); }
      case Delete(_, c) => DeletedKeeps(cfg, w, home, key, c);
      case Ensure(_, owner, c) => if key !in w.db.rows { InsertKeeps(cfg, w, home, key, owner, "", c.now); }
      case Reset(listed, c) => PatchKeeps(cfg, w, home, listed.id, ResetPatch(listed.hash, c.now));
      case Resync(uid, text, c) => ResyncKeeps(cfg, w, home, uid, text, c);
      case Edit(_, content) => EditKeeps(cfg, w, Apply(cfg, w, s), home, key);
    }
  }

  lemma UnresolvedIsNothing(cfg: Config, w: World, listed: SyncState, c: Calls)
    ensures SyncedListed(cfg, w, listed, None, c).0 == w
  {}

  lemma ResyncKeeps(cfg: Config, w: World, home: Key -> string, uid: string, text: string, c: Calls)
    requires Inv(w, home)
    ensures var w' := MarkedForResync(cfg, w, uid, text, c).0;
            Keeps(w, w', home, Key(MemoType, uid)) &&
            (SyncedOk(cfg, w, Key(MemoType, uid)) ==> SyncedOk(cfg, w', Key(MemoType, uid)))
  {
    hide Updated, Inv, Keeps, LiveOk, SyncedOk, Inserted;
    var key := Key(MemoType, uid);
    SameKeeps(w, home, key);
    InvAt(w, home, key);
    if key in w.db.rows {
      PatchKeeps(cfg, w, home, w.db.rows[key].id, ResetPatch(cfg.hash(text), c.now));
    } else {
      forall owner { InsertKeeps(cfg, w, home, key, owner, cfg.hash(text), c.now); }
    }
  }

  lemma EditKeeps(cfg: Config, w: World, w': World, home: Key -> string, key: Key)
    requires Inv(w, home) && w'.db == w.db && w'.remote == w.remote
    ensures Keeps(w, w', home, key) && (SyncedOk(cfg, w, key) <==> SyncedOk(cfg, w', key))
  {
    InvAt(w, home, key);
  }

  // ----- runs -----

  ghost predicate IsFairRun(cfg: Config, w: World, home: Key -> string, steps: seq<Step>)
    decreases |steps|
  {
    steps == [] || (Fair(w, home, steps[0]) && IsFairRun(cfg, Apply(cfg, w, steps[0]), home, steps[1..]))
  }

  /** No step of the run loses the document of a synced row. */
  ghost predicate NeverLoses(cfg: Config, w: World, steps: seq<Step>)
    decreases |steps|
  {
    steps == [] || (!LosesDocument(cfg, w, steps[0]) && NeverLoses(cfg, Apply(cfg, w, steps[0]), steps[1..]))
  }

  function After(cfg: Config, w: World, steps: seq<Step>): World
    decreases |steps|
  {
    if steps == [] then w else After(cfg, Apply(cfg, w, steps[0]), steps[1..])
  }

  function Fresh(contents: map<Key, Content>): World { World(Db(map[], []), Remote(map[], map[]), contents) }

  lemma StepKeepsAll(cfg: Config, w: World, home: Key -> string, s: Step)
    requires Inv(w, home) && Fair(w, home, s)
    ensures Inv(Apply(cfg, w, s), home)
    ensures (forall k :: SyncedOk(cfg, w, k)) && !LosesDocument(cfg, w, s) ==>
              forall k :: SyncedOk(cfg, Apply(cfg, w, s), k)
  {
    hide Inv, Fair, Apply, LosesDocument, SyncedOk, Local, RowOk, LiveOk;
    StepKeeps(cfg, w, home, s);
    KeepsGivesInv(w, Apply(cfg, w, s), home, KeyOf(s));
    if (forall k :: SyncedOk(cfg, w, k)) && !LosesDocument(cfg, w, s) {
      LocalKeepsSynced(cfg, w, Apply(cfg, w, s), KeyOf(s));
    }
  }

  lemma {:induction false} RunKeepsInv(cfg: Config, w: World, home: Key -> string, steps: seq<Step>)
    requires Inv(w, home) && IsFairRun(cfg, w, home, steps)
    ensures Inv(After(cfg, w, steps), home)
    ensures (forall k :: SyncedOk(cfg, w, k)) && NeverLoses(cfg, w, steps) ==>
              forall k :: SyncedOk(cfg, After(cfg, w, steps), k)
    decreases |steps|
  {
    hide Inv, Fair, Apply, LosesDocument, SyncedOk;
    if steps != [] {
      StepKeepsAll(cfg, w, home, steps[0]);
      RunKeepsInv(cfg, Apply(cfg, w, steps[0]), home, steps[1..]);
    }
  }

  lemma FreshInv(cfg: Config, contents: map<Key, Content>, home: Key -> string)
    ensures Inv(Fresh(contents), home) && forall k :: SyncedOk(cfg, Fresh(contents), k)
  {}

  /** In every fair run each content has at most one live remote document, and it is the one its row records. */
  lemma AtMostOneLiveDocument(cfg: Config, contents: map<Key, Content>, home: Key -> string, steps: seq<Step>)
    requires IsFairRun(cfg, Fresh(contents), home, steps)
    ensures var w := After(cfg, Fresh(contents), steps);
            (forall d <- w.remote.live ::
             w.remote.live[d].key in w.db.rows && w.db.rows[w.remote.live[d].key].document == d) &&
            (forall d, e | d in w.remote.live && e in w.remote.live :: w.remote.live[d].key == w.remote.live[e].key ==>
             d == e)
  {
    hide SyncedOk, Fair, Apply, RowOk;
    FreshInv(cfg, contents, home);
    RunKeepsInv(cfg, Fresh(contents), home, steps);
    var w := After(cfg, Fresh(contents), steps);
    forall d | d in w.remote.live
      ensures w.remote.live[d].key in w.db.rows && w.db.rows[w.remote.live[d].key].document == d
    {
      InvAt(w, home, w.remote.live[d].key);
    }
  }

  /** In every fair run in which no upload failure strands a synced row, a synced row's document is live and
      was built from content with the row's hash; with a hash free of collisions, from that very content. */
  lemma SyncedDocumentsAreCurrent(cfg: Config, contents: map<Key, Content>, home: Key -> string, steps: seq<Step>,
                                  k: Key, text: string)
    requires IsFairRun(cfg, Fresh(contents), home, steps) && NeverLoses(cfg, Fresh(contents), steps)
    requires var w := After(cfg, Fresh(contents), steps);
             k in w.db.rows && w.db.rows[k].status.Synced? && w.db.rows[k].hash == cfg.hash(text)
    requires forall s, t :: cfg.hash(s) == cfg.hash(t) ==> s == t
    ensures var w := After(cfg, Fresh(contents), steps);
            var d := w.db.rows[k].document;
            d in w.remote.live && w.remote.live[d] == Document(home(k), k, text)
  {
    hide Fair, Apply, NeverLoses, IsFairRun, RowOk;
    FreshInv(cfg, contents, home);
    RunKeepsInv(cfg, Fresh(contents), home, steps);
    var w := After(cfg, Fresh(contents), steps);
    assert SyncedOk(cfg, w, k);
    InvAt(w, home, k);
  }

  // ----- what happens without the assumptions -----

  /** The old document survives the upload of its successor. */
  predicate Leaks(cfg: Config, w: World, key: Key, dataset: string, c: Calls) {
    Pushes(cfg, w, key, c) && c.upload.Some? && RecordsLive(w, key) &&
    (!c.delete || w.remote.live[w.db.rows[key].document].dataset != dataset)
  }

  /** One synchronisation of any data set, with deletes that may fail, leaves two live documents exactly when
      the old document is live and the delete fails or names another data set. */
  lemma SyncLeaksIff(cfg: Config, w: World, home: Key -> string, key: Key, dataset: string, c: Calls)
    requires Inv(w, home) && FreshUpload(w, c)
    ensures var w' := SyncedContent(cfg, w, key, dataset, c).0;
            Leaks(cfg, w, key, dataset, c) <==>
            exists d, e :: d != e && d in w'.remote.live && e in w'.remote.live &&
                           w'.remote.live[d].key == w'.remote.live[e].key == key
  {
    hide SyncedContent, Pushed, Updated, Inv, Recorded;
    InvAt(w, home, key);
    InvIssued(w, home);
    SyncedContentCases(cfg, w, key, dataset, c);
    if Pushes(cfg, w, key, c) {
      PushLeaks(cfg, w, home, key, dataset, TextOf(w.contents[key]), w.contents[key].creator, c);
    }
  }

  lemma PushLeaks(cfg: Config, w: World, home: Key -> string, key: Key, dataset: string, text: string, creator: int,
                  c: Calls)
    requires RowOk(w, home, key) && LiveOk(w, home, key) && IssuedOk(w.remote) && FreshUpload(w, c)
    ensures var live := Pushed(cfg, w, key, dataset, text, creator, c).0.remote.live;
            (c.upload.Some? && RecordsLive(w, key) &&
             (!c.delete || w.remote.live[w.db.rows[key].document].dataset != dataset)) <==>
            exists d, e :: d != e && d in live && e in live && live[d].key == live[e].key == key
  {
    hide Recorded;
    var live := Pushed(cfg, w, key, dataset, text, creator, c).0.remote.live;
    if c.upload.Some? && RecordsLive(w, key) &&
      (!c.delete || w.remote.live[w.db.rows[key].document].dataset != dataset) {
      var d, e := w.db.rows[key].document, c.upload.value;
      assert d != e && d in live && e in live && live[d].key == live[e].key == key;
    }
  }

  /** Creating a pending state by upsert while the row records a live document makes that document an orphan:
      live, of this content, and recorded nowhere. */
  lemma UpsertOrphans(w: World, home: Key -> string, key: Key, owner: int, hash: string, now: int)
    requires Inv(w, home)
    ensures LiveOk(w.(db := Upserted(w.db, key, owner, hash, now)), home, key) <==> !RecordsLive(w, key)
  {
    InvAt(w, home, key);
  }
}
