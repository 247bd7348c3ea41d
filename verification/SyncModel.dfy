/** The sync state table, the remote document store, and what one call of the sync code does to them. */
module SyncModel {
  import opened Options

  datatype ContentType = MemoType | AttachmentType

  datatype Key = Key(ctype: ContentType, uid: string)

  datatype Status = Pending | Synced | Failed | Skipped

  /** A row of `content_sync_state`; an empty document id means there is no document. */
  datatype SyncState = SyncState(id: nat, key: Key, owner: int, status: Status, dataset: string, document: string,
                                 syncedTs: Option<int>, error: string, hash: string, retryCount: int,
                                 nextRetryTs: Option<int>, createdTs: int, updatedTs: int)

  /** The columns an update names; a `None` column is left alone. */
  datatype Patch = Patch(status: Option<Status>, dataset: Option<string>, document: Option<string>,
                         syncedTs: Option<int>, error: Option<string>, hash: Option<string>,
                         retryCount: Option<int>, nextRetryTs: Option<int>, updatedTs: Option<int>)

  const NOTHING := Patch(None, None, None, None, None, None, None, None, None)

  /** The table, and for every row id ever handed out the content it was for. */
  datatype Db = Db(rows: map<Key, SyncState>, ids: seq<Key>)

  datatype Document = Document(dataset: string, key: Key, text: string)

  /** The documents that exist remotely, and for every document id ever issued the content it was for. */
  datatype Remote = Remote(live: map<string, Document>, issued: map<string, Key>)

  datatype Content =
    | Memo(text: string, creator: int, normal: bool)
    | Attachment(mime: string, blob: string, creator: int)

  datatype World = World(db: Db, remote: Remote, contents: map<Key, Content>)

  /** `hash` stands for SHA-256; delays are in seconds. */
  datatype Config = Config(hash: string -> string, maxRetries: int, baseRetryDelay: nat)

  // ----- the state table -----

  function Or<T>(o: Option<T>, old': T): T { if o.Some? then o.value else old' }

  function OrSome<T>(o: Option<T>, old': Option<T>): Option<T> { if o.Some? then o else old' }

  function Patched(r: SyncState, p: Patch): SyncState {
    r.(status := Or(p.status, r.status), dataset := Or(p.dataset, r.dataset), document := Or(p.document, r.document),
       syncedTs := OrSome(p.syncedTs, r.syncedTs), error := Or(p.error, r.error), hash := Or(p.hash, r.hash),
       retryCount := Or(p.retryCount, r.retryCount), nextRetryTs := OrSome(p.nextRetryTs, r.nextRetryTs),
       updatedTs := Or(p.updatedTs, r.updatedTs))
  }

  /** `UPDATE ... WHERE id = ?`. */
  function Updated(db: Db, id: nat, p: Patch): Db {
    db.(rows := map k | k in db.rows :: if db.rows[k].id == id then Patched(db.rows[k], p) else db.rows[k])
  }

  function Row(db: Db, key: Key): Option<SyncState> {
    if key in db.rows then Some(db.rows[key]) else None
  }

  function NewRow(db: Db, key: Key, owner: int, hash: string, now: int): SyncState {
    SyncState(|db.ids|, key, owner, Pending, "", "", None, "", hash, 0, None, now, now)
  }

  function Inserted(db: Db, key: Key, owner: int, hash: string, now: int): Db {
    Db(db.rows[key := NewRow(db, key, owner, hash, now)], db.ids + [key])
  }

  /** Insert, or overwrite every listed column of the row that is there; its id, owner and creation time stay. */
  function Upserted(db: Db, key: Key, owner: int, hash: string, now: int): Db {
    if key in db.rows then
      db.(rows := db.rows[key :=
                          db.rows[key].(status := Pending, dataset := "", document := "", syncedTs := None, error := "",
                                               hash := hash, retryCount := 0, nextRetryTs := None, updatedTs := now)])
    else Inserted(db, key, owner, hash, now)
  }

  function Removed(db: Db, key: Key): Db { db.(rows := db.rows - {key}) }

  // ----- the marks -----

  function SyncedPatch(dataset: string, document: string, now: int): Patch {
    NOTHING.(status := Some(Synced), dataset := Some(dataset), document := Some(document), syncedTs := Some(now),
             error := Some(""), updatedTs := Some(now))
  }

  function SkippedPatch(reason: string, now: int): Patch {
    NOTHING.(status := Some(Skipped), error := Some(reason), updatedTs := Some(now))
  }

  function ResetPatch(hash: string, now: int): Patch {
    NOTHING.(status := Some(Pending), hash := Some(hash), retryCount := Some(0), updatedTs := Some(now))
  }

  function Pow2(n: nat): nat { if n == 0 then 1 else 2 * Pow2(n - 1) }

  /** The next retry is set only while retries are left. */
  function FailedPatch(cfg: Config, retryCount: int, error: string, now: int): Patch {
    var n := retryCount + 1;
    NOTHING.(status := Some(Failed), error := Some(error), retryCount := Some(n), updatedTs := Some(now),
             nextRetryTs := if n < cfg.maxRetries then Some(now + cfg.baseRetryDelay * Pow2(if n < 0 then 0 else n))
               else None)
  }

  /** The row after each mark: what is not named here stays, the retry time of a failed row without retries left
      included. */
  lemma MarkedRows(cfg: Config, r: SyncState, dataset: string, document: string, text: string, now: int)
    requires r.retryCount >= 0
    ensures Patched(r, SyncedPatch(dataset, document, now))
            == r.(status := Synced, dataset := dataset, document := document, syncedTs := Some(now), error := "",
                  updatedTs := now)
    ensures Patched(r, SkippedPatch(text, now)) == r.(status := Skipped, error := text, updatedTs := now)
    ensures Patched(r, ResetPatch(text, now)) == r.(status := Pending, hash := text, retryCount := 0, updatedTs := now)
    ensures Patched(r, NOTHING.(hash := Some(text))) == r.(hash := text)
    ensures Patched(r, FailedPatch(cfg, r.retryCount, text, now))
            == r.(status := Failed, error := text, retryCount := r.retryCount + 1, updatedTs := now,
                  nextRetryTs := if r.retryCount + 1 >= cfg.maxRetries then r.nextRetryTs
                                 else Some(now + cfg.baseRetryDelay * Pow2(r.retryCount + 1)))
  {}

  /** Every retry waits twice as long as the one before; the delay of the first is twice the base. */
  lemma DelaysDouble(n: nat)
    ensures Pow2(0) == 1 && Pow2(n + 1) == Pow2(n) + Pow2(n)
  {}

  predicate Retryable(cfg: Config, r: SyncState, now: int) {
    r.retryCount < cfg.maxRetries && r.nextRetryTs.Some? && r.nextRetryTs.value <= now
  }

  /** A row marked as failed is due for a retry exactly while retries are left and the delay, which doubles with
      every failure, has passed; a retry time left over from before does not count. */
  lemma RetryDueIff(cfg: Config, r: SyncState, error: string, now: int, t: int)
    requires r.retryCount >= 0
    ensures Retryable(cfg, Patched(r, FailedPatch(cfg, r.retryCount, error, now)), t) <==>
            r.retryCount + 1 < cfg.maxRetries && now + cfg.baseRetryDelay * Pow2(r.retryCount + 1) <= t
  {}

  /** The row after failing at each of the given times. */
  function Failing(cfg: Config, r: SyncState, error: string, times: seq<int>): SyncState
    decreases |times|
  {
    if times == [] then r
    else Failing(cfg, Patched(r, FailedPatch(cfg, r.retryCount, error, times[0])), error, times[1..])
  }

  /** After as many failures as there are retries a row is never due again, until it is reset. */
  lemma {:induction false} RetriesRunOut(cfg: Config, r: SyncState, error: string, times: seq<int>, t: int)
    requires r.retryCount + |times| >= cfg.maxRetries
    ensures !Retryable(cfg, Failing(cfg, r, error, times), t)
    decreases |times|
  {
    if times != [] {
      RetriesRunOut(cfg, Patched(r, FailedPatch(cfg, r.retryCount, error, times[0])), error, times[1..], t);
    }
  }

  // ----- the remote store -----

  /** A delete that reaches the service removes the document if the data set has it. */
  function DocumentDeleted(r: Remote, dataset: string, id: string, ok: bool): Remote {
    if ok && id in r.live && r.live[id].dataset == dataset then r.(live := r.live - {id}) else r
  }

  function DocumentUploaded(r: Remote, id: string, doc: Document): Remote {
    Remote(r.live[id := doc], r.issued[id := doc.key])
  }

  // ----- one synchronisation -----

  /** How the calls made by one operation turn out; `upload` is the id the service answers with. */
  datatype Calls = Calls(load: bool, readState: bool, readBlob: bool, delete: bool, upload: Option<string>, parse: bool,
                         create: bool, mark: bool, rehash: bool, markFailed: bool, now: int)

  type Verdict = Option<string>  // the error, if any

  const PARSEABLE: set<string> :=
    {"application/pdf", "text/plain", "text/markdown", "text/html", "application/msword",
     "application/vnd.openxmlformats-officedocument.wordprocessingml.document", "application/vnd.ms-excel",
     "application/vnd.openxmlformats-officedocument.spreadsheetml.sheet", "application/vnd.ms-powerpoint",
     "application/vnd.openxmlformats-officedocument.presentationml.presentation",
     "image/png", "image/jpeg", "image/jpg", "image/tiff", "image/bmp", "image/webp"}

  predicate Unchanged(st: Option<SyncState>, hash: string) {
    st.Some? && st.value.status.Synced? && st.value.hash == hash
  }

  /** The old document is deleted, a failure being only logged; then the new one is uploaded. */
  function AfterDelete(w: World, dataset: string, st: Option<SyncState>, c: Calls): Remote {
    if st.Some? && st.value.document != "" then DocumentDeleted(w.remote, dataset, st.value.document, c.delete)
    else w.remote
  }

  /** The bookkeeping after an upload: the row is created if there was none, marked, and given the new hash. */
  function Recorded(db: Db, key: Key, creator: int, dataset: string, document: string, hash: string, c: Calls)
    : (Db, Verdict)
  {
    if key !in db.rows && !c.create then (db, Some("create sync state"))
    else
      var db1 := if key in db.rows then db else Upserted(db, key, creator, hash, c.now);
      if !c.mark then (db1, Some("update sync state"))
      else
        var id := db1.rows[key].id;
        var db2 := Updated(db1, id, SyncedPatch(dataset, document, c.now));
        (if c.rehash then Updated(db2, id, NOTHING.(hash := Some(hash))) else db2, None)
  }

  function Pushed(cfg: Config, w: World, key: Key, dataset: string, text: string, creator: int, c: Calls)
    : (World, Verdict)
  {
    var remote := AfterDelete(w, dataset, Row(w.db, key), c);
    if c.upload.None? then (w.(remote := remote), Some("upload document"))
    else
      var id := c.upload.value;
      var uploaded := DocumentUploaded(remote, id, Document(dataset, key, text));
      var (db, err) := Recorded(w.db, key, creator, dataset, id, cfg.hash(text), c);
      (w.(remote := uploaded, db := db), err)
  }

  function SyncedMemo(cfg: Config, w: World, uid: string, dataset: string, c: Calls): (World, Verdict) {
    var key := Key(MemoType, uid);
    if !c.load then (w, Some("load memo"))
    else if key !in w.contents || !w.contents[key].Memo? then (w, Some("memo does not exist"))
    else if !c.readState then (w, Some("read sync state"))
    else
      var memo := w.contents[key];
      if Unchanged(Row(w.db, key), cfg.hash(memo.text)) then (w, None)
      else Pushed(cfg, w, key, dataset, memo.text, memo.creator, c)
  }

  function SkipReason(mime: string): string { "unsupported attachment type: " + mime }

  function SyncedAttachment(cfg: Config, w: World, uid: string, dataset: string, c: Calls): (World, Verdict) {
    var key := Key(AttachmentType, uid);
    if !c.load then (w, Some("load attachment"))
    else if key !in w.contents || !w.contents[key].Attachment? then (w, Some("attachment does not exist"))
    else
      var att := w.contents[key];
      if att.mime !in PARSEABLE then
        (if c.readState && key in w.db.rows && c.mark then
           w.(db := Updated(w.db, w.db.rows[key].id, SkippedPatch(SkipReason(att.mime), c.now)))
         else w, None)
      else if !c.readBlob then (w, Some("load attachment content"))
      else if att.blob == "" then (w, Some("attachment is empty"))
      else if !c.readState then (w, Some("read sync state"))
      else if Unchanged(Row(w.db, key), cfg.hash(att.blob)) then (w, None)
      else Pushed(cfg, w, key, dataset, att.blob, att.creator, c)
  }

  function SyncedContent(cfg: Config, w: World, key: Key, dataset: string, c: Calls): (World, Verdict) {
    match key.ctype
    case MemoType => SyncedMemo(cfg, w, key.uid, dataset, c)
    case AttachmentType => SyncedAttachment(cfg, w, key.uid, dataset, c)
  }

  /** Deleting the document of a content and then its row; here the row's own data set is used. */
  function DeletedContent(w: World, key: Key, c: Calls): (World, Verdict) {
    if !c.readState then (w, Some("read sync state"))
    else if key !in w.db.rows then (w, None)
    else
      var r := w.db.rows[key];
      var remote := if r.document != "" && r.dataset != "" then
                      DocumentDeleted(w.remote, r.dataset, r.document, c.delete)
                    else w.remote;
      if !c.mark then (w.(remote := remote), Some("delete sync state"))
      else (w.(remote := remote, db := Removed(w.db, key)), None)
  }

  /** A row is created only when there is none. */
  function Ensured(w: World, key: Key, owner: int, c: Calls): (World, Verdict) {
    if !c.readState then (w, Some("read sync state"))
    else if key in w.db.rows then (w, None)
    else if !c.create then (w, Some("create sync state"))
    else (w.(db := Inserted(w.db, key, owner, "", c.now)), None)
  }

  function ResetRow(w: World, id: nat, hash: string, c: Calls): (World, Verdict) {
    if !c.mark then (w, Some("update sync state")) else (w.(db := Updated(w.db, id, ResetPatch(hash, c.now))), None)
  }

  /** Called when a memo was edited: its row is reset with the new hash, or created. */
  function MarkedForResync(cfg: Config, w: World, uid: string, text: string, c: Calls): (World, Verdict) {
    var key := Key(MemoType, uid);
    if !c.readState then (w, Some("read sync state"))
    else if key in w.db.rows then ResetRow(w, w.db.rows[key].id, cfg.hash(text), c)
    else if !c.load then (w, Some("load memo"))
    else if key !in w.contents || !w.contents[key].Memo? then (w, Some("memo does not exist"))
    else if !c.create then (w, Some("create sync state"))
    else (w.(db := Upserted(w.db, key, w.contents[key].creator, cfg.hash(text), c.now)), None)
  }

  /** One listed row in a batch: `dataset` is `None` when its resources could not be resolved; an error of the
      synchronisation marks the row by the id and the retry count it was listed with. */
  function SyncedListed(cfg: Config, w: World, listed: SyncState, dataset: Option<string>, c: Calls): (World, bool) {
    if dataset.None? then (w, false)
    else
      var (w1, err) := SyncedContent(cfg, w, listed.key, dataset.value, c);
      if err.None? then (w1, true)
      else (if c.markFailed then
            w1.(db := Updated(w1.db, listed.id, FailedPatch(cfg, listed.retryCount, err.value, c.now))) else w1, false)
  }
}
