/** What one event achieves, and what a run of failing events does to the breaker. */
module SyncEvents {
  import opened Options
  import opened SyncModel
  import opened SyncRuns
  import opened SyncBatch
  import opened SyncDrain
  import opened SyncOutage
  import H = HealthChecker

  // ----- one event of a healthy service -----

  /** A created or edited content is synchronised as it is by its event, when the service is healthy and every call
      succeeds, whatever state its row was in; only a row that was already synced at that content is left alone. */
  lemma EventSynchronises(cfg: Config, w: World, home: Key -> string, event: EventType, key: Key, user: int,
                          ensure: Calls, c: Calls)
    requires !event.DeleteEvent? && RowsOk(w.db) && home(key) != "" && CallsOk(ensure) && CallsOk(c) && Loadable(w, key)
    ensures var end := EventHandled(cfg, w, event, key, user, true, Some(home(key)), ensure, c);
            Done(cfg, end, key) && RowsOk(end.db) && end.contents == w.contents &&
            (forall k <- w.db.rows :: k != key ==> k in end.db.rows && end.db.rows[k] == w.db.rows[k]) &&
            EventVerdict(cfg, w, event, key, user, true, true, Some(home(key)), ensure, c) == None
  {
    hide SyncedContent, Ensured;
    var w1 := Ensured(w, key, user, ensure).0;
    MissingRowIsMade(w, key, user, ensure);
    ContentIsDone(cfg, w1, home, key, c);
    SyncVerdict(cfg, w1, key, home(key), c);
  }

  lemma MissingRowIsMade(w: World, key: Key, user: int, ensure: Calls)
    requires RowsOk(w.db) && CallsOk(ensure)
    ensures var w1 := Ensured(w, key, user, ensure).0;
            RowsOk(w1.db) && w1.contents == w.contents && key in w1.db.rows &&
            forall k <- w.db.rows :: k in w1.db.rows && w1.db.rows[k] == w.db.rows[k]
  {}

  lemma ContentIsDone(cfg: Config, w1: World, home: Key -> string, key: Key, c: Calls)
    requires RowsOk(w1.db) && key in w1.db.rows && CallsOk(c) && Loadable(w1, key)
    ensures var end := SyncedContent(cfg, w1, key, home(key), c).0;
            Done(cfg, end, key) && RowsOk(end.db) && end.contents == w1.contents &&
            forall k <- w1.db.rows :: k != key ==> k in end.db.rows && end.db.rows[k] == w1.db.rows[k]
  {
    hide SyncedContent, Recorded, Updated, AfterDelete;
    SyncedContentCases(cfg, w1, key, home(key), c);
    if Pushes(cfg, w1, key, c) {
      var text := TextOf(w1.contents[key]);
      RecordedRow(w1.db, key, w1.contents[key].creator, home(key), c.upload.value, cfg.hash(text), c);
    } else if Skips(w1, key, c) {
      UpdatedIsLocal(w1.db, w1.db.rows[key].id, SkippedPatch(SkipReason(w1.contents[key].mime), c.now));
    }
  }

  /** When a synchronisation reports an error: the content cannot be loaded or has nothing to upload, the row cannot be
      read, or the content has changed and its upload or the bookkeeping after it fails. */
  lemma SyncVerdict(cfg: Config, w: World, key: Key, dataset: string, c: Calls)
    ensures SyncedContent(cfg, w, key, dataset, c).1.Some? <==>
            !c.load || key !in w.contents || (key.ctype.MemoType? <==> w.contents[key].Attachment?) ||
            (!Unparseable(w, key) &&
             ((key.ctype.AttachmentType? && (!c.readBlob || w.contents[key].blob == "")) || !c.readState ||
              (!Unchanged(Row(w.db, key), cfg.hash(TextOf(w.contents[key]))) &&
               (c.upload.None? || (key !in w.db.rows && !c.create) || !c.mark))))
  {
    hide Updated, DocumentDeleted, Upserted;
  }

  /** A content whose row is synced with the hash it has costs no call to the document service. */
  lemma UnchangedUploadsNothing(cfg: Config, w: World, event: EventType, key: Key, user: int, healthy: bool,
                                dataset: Option<string>, ensure: Calls, c: Calls)
    requires !event.DeleteEvent? && Loadable(w, key) && !Unparseable(w, key)
    requires key in w.db.rows && w.db.rows[key].status.Synced?
    requires w.db.rows[key].hash == cfg.hash(TextOf(w.contents[key]))
    ensures EventHandled(cfg, w, event, key, user, healthy, dataset, ensure, c) == w
  {
    hide Updated, Pushed, Inserted;
  }

  /** A deletion while the service is healthy, with every call succeeding, leaves neither row nor document. */
  lemma EventDeletes(cfg: Config, w: World, home: Key -> string, key: Key, user: int, dataset: Option<string>,
                     ensure: Calls, c: Calls)
    requires Inv(w, home) && CallsOk(c)
    ensures var end := EventHandled(cfg, w, DeleteEvent, key, user, true, dataset, ensure, c);
            key !in end.db.rows && DocumentsOf(end, key) == map[] && end.contents == w.contents &&
            end.db.rows == w.db.rows - {key} &&
            EventVerdict(cfg, w, DeleteEvent, key, user, true, true, dataset, ensure, c) == None
  {
    hide Inv, DocumentsOf;
    DeletedDocuments(w, home, key, c);
    NoDocuments(DeletedContent(w, key, c).0, w, key);
    assert key !in w.db.rows ==> w.db.rows - {key} == w.db.rows;
  }

  lemma NoDocuments(end: World, w: World, key: Key)
    requires end.remote.live == w.remote.live - DocumentsOf(w, key).Keys
    ensures DocumentsOf(end, key) == map[]
  {}

  /** A created or edited content whose user has no client, or whose data set is not found or has no name, only gets its
      row; a missing client alone is an error. */
  lemma EventWithoutTarget(cfg: Config, w: World, event: EventType, key: Key, user: int, hasClient: bool,
                           dataset: Option<string>, ensure: Calls, c: Calls)
    requires !event.DeleteEvent? && (!hasClient || dataset == None || dataset == Some(""))
    ensures var used := if hasClient then dataset else None;
            EventHandled(cfg, w, event, key, user, true, used, ensure, c) == Ensured(w, key, user, ensure).0
    ensures EventVerdict(cfg, w, event, key, user, true, hasClient, dataset, ensure, c).Some? <==> !hasClient
  {}

  /** What a deletion leaves: without the row, or when it cannot be read, everything; otherwise no row, unless deleting
      the row fails, which alone and an unreadable row are errors.  The document is deleted before the row. */
  lemma DeletionOutcome(w: World, key: Key, c: Calls)
    ensures var (end, err) := DeletedContent(w, key, c);
            (err.Some? <==> !c.readState || (key in w.db.rows && !c.mark)) &&
            (!c.readState || key !in w.db.rows ==> end == w) &&
            (c.readState && key in w.db.rows ==>
               end.db == (if c.mark then w.db.(rows := w.db.rows - {key}) else w.db) && end.contents == w.contents &&
               end.remote == if w.db.rows[key].document == "" || w.db.rows[key].dataset == "" then w.remote
                             else DocumentDeleted(w.remote, w.db.rows[key].dataset, w.db.rows[key].document, c.delete))
  {}

  /** An event never reports an error while the service is down, and does nothing then but make a missing row. */
  lemma OutageReportsNothing(cfg: Config, w: World, event: EventType, key: Key, user: int, hasClient: bool,
                             dataset: Option<string>, ensure: Calls, c: Calls)
    ensures EventVerdict(cfg, w, event, key, user, false, hasClient, dataset, ensure, c) == None
    ensures var end := EventHandled(cfg, w, event, key, user, false, dataset, ensure, c);
            end.remote == w.remote && end.contents == w.contents &&
            (event.DeleteEvent? || key in w.db.rows ==> end == w)
  {}

  // ----- the breaker over failing events -----

  /** An event whose synchronisation is attempted and fails at `at`, after the question `q`. */
  datatype Failing = Failing(q: H.Question, at: int)

  function AfterFailing(h: H.Config, b: H.Breaker, f: Failing): H.Breaker {
    var (asked, healthy) := H.Asked(h, b, f.q);
    Reported(h, asked, Update, healthy, Some("data set"), Some("upload document"), f.at)
  }

  function AfterAllFailing(h: H.Config, b: H.Breaker, fs: seq<Failing>): H.Breaker
    decreases |fs|
  {
    if fs == [] then b else AfterAllFailing(h, AfterFailing(h, b, fs[0]), fs[1..])
  }

  /** All questions come within the check interval of the last check. */
  predicate Soon(h: H.Config, b: H.Breaker, fs: seq<Failing>) {
    forall f <- fs :: f.q.now - b.lastCheckTime < h.checkInterval
  }

  /** Failures within one check interval add up, and the one that reaches the threshold opens the breaker. */
  lemma {:induction false} FailuresOpen(h: H.Config, b: H.Breaker, fs: seq<Failing>)
    requires !b.circuitOpen && b.isHealthy && 0 <= b.failureCount < h.failureThreshold && Soon(h, b, fs)
    requires |fs| <= h.failureThreshold - b.failureCount
    ensures var end := AfterAllFailing(h, b, fs);
            end.failureCount == b.failureCount + |fs| &&
            (end.circuitOpen <==> b.failureCount + |fs| >= h.failureThreshold) &&
            end.isHealthy && end.lastCheckTime == b.lastCheckTime
    decreases |fs|
  {
    if fs != [] {
      var f := fs[0];
      assert f in fs && forall g <- fs[1..] :: g in fs;
      var b1 := AfterFailing(h, b, f);
      assert b1.failureCount == b.failureCount + 1;
      if |fs| == 1 {
        assert fs[1..] == [];
      } else {
        FailuresOpen(h, b1, fs[1..]);
      }
    }
  }

  /** Every question comes when a check is due, and its check succeeds. */
  predicate Spaced(h: H.Config, b: H.Breaker, fs: seq<Failing>)
    decreases |fs|
  {
    fs == [] || (fs[0].q.now - b.lastCheckTime >= h.checkInterval && fs[0].q.ok &&
                 Spaced(h, AfterFailing(h, b, fs[0]), fs[1..]))
  }

  /** Failures further apart never do: the successful check between two of them forgets the first, so that the breaker
      stays closed however many there are. */
  lemma {:induction false} SpacedFailuresNeverOpen(h: H.Config, b: H.Breaker, fs: seq<Failing>)
    requires !b.circuitOpen && h.failureThreshold >= 2 && Spaced(h, b, fs)
    ensures var end := AfterAllFailing(h, b, fs); !end.circuitOpen && (fs != [] ==> end.failureCount == 1)
    decreases |fs|
  {
    if fs != [] { SpacedFailuresNeverOpen(h, AfterFailing(h, b, fs[0]), fs[1..]); }
  }

  /** An open breaker keeps failing events away until a probe after the timeout succeeds; then the count starts anew. */
  lemma OpenKeepsEventsAway(h: H.Config, b: H.Breaker, f: Failing)
    requires b.circuitOpen && h.failureThreshold >= 2
    ensures var end, probed := AfterFailing(h, b, f), f.q.start - b.circuitOpenAt >= h.recoveryTimeout;
            if !probed then end == b
            else if f.q.ok then !end.circuitOpen && end.failureCount == 1
            else end.circuitOpen && end.circuitOpenAt == f.q.end && end.failureCount == b.failureCount
  {}

  // ----- rows -----

  /** An edited memo that is marked for another synchronisation has a pending row with the hash of the new text and no
      failures, whatever row it had. */
  lemma ResyncIsPending(cfg: Config, w: World, uid: string, text: string, c: Calls)
    requires RowsOk(w.db) && CallsOk(c) && Key(MemoType, uid) in w.contents && w.contents[Key(MemoType, uid)].Memo?
    ensures var (end, err) := MarkedForResync(cfg, w, uid, text, c);
            var key := Key(MemoType, uid);
            err.None? && key in end.db.rows && end.db.rows[key].status.Pending? &&
            end.db.rows[key].hash == cfg.hash(text) && end.db.rows[key].retryCount == 0 &&
            end.remote == w.remote && end.contents == w.contents
  {
    hide Updated;
    var key := Key(MemoType, uid);
    if key in w.db.rows { UpdatedIsLocal(w.db, w.db.rows[key].id, ResetPatch(cfg.hash(text), c.now)); }
  }

  /** A listed row whose synchronisation fails is marked as failed once more than when it was listed; one whose data set
      is not found, or in a batch has no name, fails without being touched. */
  lemma FailureIsMarked(cfg: Config, w: World, listed: SyncState, datasets: Key -> Option<string>, c: Calls)
    requires RowsOk(w.db) && c.markFailed
    ensures var (end, ok) := SyncedListed(cfg, w, listed, datasets(listed.key), c);
            if datasets(listed.key).None? then !ok && end == w
            else
              var (w1, err) := SyncedContent(cfg, w, listed.key, datasets(listed.key).value, c);
              (ok <==> err.None?) && (ok ==> end == w1) &&
              (!ok && listed.key in w1.db.rows && w1.db.rows[listed.key].id == listed.id ==>
                 listed.key in end.db.rows && end.db.rows[listed.key].status.Failed? &&
                 end.db.rows[listed.key].retryCount == listed.retryCount + 1 &&
                 end.db.rows[listed.key].error == err.value)
    ensures datasets(listed.key) == Some("") ==>
              SyncedListed(cfg, w, listed, Named(datasets)(listed.key), c) == (w, false)
    ensures datasets(listed.key) != Some("") ==> Named(datasets)(listed.key) == datasets(listed.key)
  {
    hide SyncedContent;
  }
}
