/** One favourable batch cycle drains the table; the cycles after it upload nothing. */
module SyncDrain {
  import opened Options
  import opened SyncModel
  import opened SyncServices
  import opened SyncRuns
  import opened SyncBatch

  // ----- query answers -----

  function RowsOf(db: Db, status: Status): set<Key> { set k | k in db.rows && db.rows[k].status == status }

  predicate DistinctKeys(listed: seq<SyncState>) {
    forall i, j :: 0 <= i < j < |listed| ==> listed[i].key != listed[j].key
  }

  function KeysOf(listed: seq<SyncState>): set<Key> { set r | r in listed :: r.key }

  /** Rows of the table with the given status, each once. */
  predicate Answer(db: Db, status: Status, listed: seq<SyncState>) {
    DistinctKeys(listed) && forall r <- listed :: r.status == status && r.key in db.rows && db.rows[r.key] == r
  }

  /** A query without a limit. */
  predicate FullAnswer(db: Db, status: Status, listed: seq<SyncState>) {
    Answer(db, status, listed) && |listed| == |RowsOf(db, status)|
  }

  /** `ORDER BY created_ts DESC LIMIT n`: the newest rows, in any order among those created at the same time. */
  predicate NewestAnswer(db: Db, status: Status, limit: nat, listed: seq<SyncState>) {
    Answer(db, status, listed) &&
    |listed| == (if |RowsOf(db, status)| <= limit then |RowsOf(db, status)| else limit) &&
    (forall i, j :: 0 <= i < j < |listed| ==> listed[j].createdTs <= listed[i].createdTs) &&
    (forall k <- RowsOf(db, status), r <- listed :: db.rows[k] in listed || db.rows[k].createdTs <= r.createdTs)
  }

  lemma {:induction false} KeysCount(listed: seq<SyncState>)
    requires DistinctKeys(listed)
    ensures |KeysOf(listed)| == |listed|
  {
    if listed != [] {
      var n := |listed| - 1;
      KeysCount(listed[..n]);
      assert KeysOf(listed) == KeysOf(listed[..n]) + {listed[n].key};
      assert listed[n].key !in KeysOf(listed[..n]);
    }
  }

  lemma SubsetOfEqualSize<T>(a: set<T>, b: set<T>)
    requires a <= b && |a| == |b|
    ensures a == b
  {
    assert |b - a| == |b| - |a|;
  }

  /** An answer with as many rows as there are lists them all. */
  lemma AnswerIsComplete(db: Db, status: Status, listed: seq<SyncState>)
    requires FullAnswer(db, status, listed)
    ensures KeysOf(listed) == RowsOf(db, status)
  {
    KeysCount(listed);
    SubsetOfEqualSize(KeysOf(listed), RowsOf(db, status));
  }

  /** The answers the database gives in a cycle. */
  predicate Answers(cfg: Config, w: World, batch: nat, cy: Cycle) {
    FullAnswer(AfterDiscovery(w, cy).db, Failed, cy.failed) &&
      FullAnswer(AfterDiscovery(w, cy).db, Skipped, cy.skipped) &&
    NewestAnswer(AfterResets(w, cy).db, Pending, batch, cy.pendingMemos) &&
    NewestAnswer(AfterMemos(cfg, w, cy).db, Pending, batch, cy.pendingAttachments) &&
    NewestAnswer(AfterAttachments(cfg, w, cy).db, Failed, batch, cy.retries)
  }

  // ----- what makes a cycle favourable -----

  predicate CallsOk(c: Calls) { c.load && c.readState && c.readBlob && c.delete && c.upload.Some? && WritesOk(c) }

  predicate Loadable(w: World, k: Key) {
    k in w.contents &&
    match k.ctype
    case MemoType => w.contents[k].Memo?
    case AttachmentType => w.contents[k].Attachment? && (w.contents[k].mime in PARSEABLE ==> w.contents[k].blob != "")
  }

  predicate Unparseable(w: World, k: Key) {
    k.ctype.AttachmentType? && k in w.contents && w.contents[k].Attachment? && w.contents[k].mime !in PARSEABLE
  }

  ghost predicate AllCallsOk(plan: Key -> Calls) { forall k :: CallsOk(plan(k)) }

  /** The uploads planned for `keys` get ids that are new and distinct. */
  ghost predicate FreshPlan(r: Remote, plan: Key -> Calls, keys: set<Key>) {
    (forall k :: plan(k).upload.Some? && plan(k).upload.value != "") &&
    (forall k, l :: k != l ==> plan(k).upload != plan(l).upload) &&
    (forall k <- keys :: plan(k).upload.value !in r.issued)
  }

  // ----- one listed row -----

  /** What a favourable synchronisation makes of a pending row. */
  predicate Done(cfg: Config, w: World, k: Key) {
    k in w.db.rows && k in w.contents &&
    if Unparseable(w, k) then w.db.rows[k].status.Skipped?
    else w.db.rows[k].status.Synced? && w.db.rows[k].hash == cfg.hash(TextOf(w.contents[k]))
  }

  lemma ListedIsDone(cfg: Config, w: World, home: Key -> string, listed: SyncState, c: Calls)
    requires RowsOk(w.db) && listed.key in w.db.rows && w.db.rows[listed.key].status.Pending?
    requires CallsOk(c) && Loadable(w, listed.key)
    ensures var (w', ok) := SyncedListed(cfg, w, listed, Some(home(listed.key)), c);
            ok && w'.contents == w.contents && w'.db.rows.Keys == w.db.rows.Keys && Done(cfg, w', listed.key) &&
            RowsOk(w'.db) &&
            w'.db.rows == w.db.rows[listed.key := w'.db.rows[listed.key]] &&
            (forall d <- w'.remote.issued :: d in w.remote.issued || d == c.upload.value)
  {
    hide SyncedContent, Recorded, Updated, AfterDelete;
    var key := listed.key;
    SyncedContentCases(cfg, w, key, home(key), c);
    if Unparseable(w, key) {
      UpdatedIsLocal(w.db, w.db.rows[key].id, SkippedPatch(SkipReason(w.contents[key].mime), c.now));
    } else {
      RecordedRow(w.db, key, w.contents[key].creator, home(key), c.upload.value, cfg.hash(TextOf(w.contents[key])), c);
      DeleteIssuesNothing(w, home(key), Row(w.db, key), c);
    }
  }

  lemma DeleteIssuesNothing(w: World, dataset: string, st: Option<SyncState>, c: Calls)
    ensures AfterDelete(w, dataset, st, c).issued == w.remote.issued
  {}

  // ----- a list of rows -----

  /** Everything the sync code keeps in a favourable world. */
  ghost predicate Healthy(cfg: Config, w: World, home: Key -> string) {
    Inv(w, home) && forall k :: SyncedOk(cfg, w, k)
  }

  /** Where the step gets fresh ids, it keeps a healthy world healthy. */
  ghost predicate HealthKept(cfg: Config, home: Key -> string, w: World, w': World, newIds: bool) {
    newIds && Healthy(cfg, w, home) ==> Healthy(cfg, w', home)
  }

  lemma ListedKeepsHealthy(cfg: Config, w: World, home: Key -> string, listed: SyncState, c: Calls)
    requires Healthy(cfg, w, home) && CallsOk(c) && FreshUpload(w, c) && home(listed.key) != ""
    requires listed.id < |w.db.ids| && w.db.ids[listed.id] == listed.key
    ensures Healthy(cfg, SyncedListed(cfg, w, listed, Some(home(listed.key)), c).0, home)
  {
    hide Inv, SyncedOk, SyncedListed;
    StepKeepsAll(cfg, w, home, Listed(listed, Some(home(listed.key)), c));
  }

  ghost predicate Resolves(datasets: Key -> Option<string>, home: Key -> string) {
    forall k :: datasets(k) == Some(home(k)) && home(k) != ""
  }

  /** Rows with the ids they have in the table. */
  predicate Current(db: Db, listed: seq<SyncState>) {
    forall r <- listed :: r.key in db.rows && db.rows[r.key].id == r.id
  }

  /** The rows of `keys` are done, the other rows stayed. */
  predicate BecameDone(cfg: Config, w: World, w': World, keys: set<Key>) {
    w'.contents == w.contents && w'.db.rows.Keys == w.db.rows.Keys &&
    (forall k <- keys :: Done(cfg, w', k)) &&
    (forall k <- w.db.rows :: k !in keys ==> w'.db.rows[k] == w.db.rows[k])
  }

  /** Only the uploads planned for `keys` were issued. */
  predicate IssuedFor(w: World, w': World, plan: Key -> Calls, keys: set<Key>) {
    forall d <- w'.remote.issued :: d in w.remote.issued || exists k <- keys :: plan(k).upload == Some(d)
  }

  lemma BecameDoneNext(cfg: Config, w: World, w1: World, w2: World, keys: set<Key>, key: Key)
    requires BecameDone(cfg, w, w1, keys) && w2.contents == w1.contents && w2.db.rows.Keys == w1.db.rows.Keys
    requires key in w2.db.rows && w2.db.rows == w1.db.rows[key := w2.db.rows[key]] && key !in keys && Done(cfg, w2, key)
    ensures BecameDone(cfg, w, w2, keys + {key})
  {
    forall k | k in keys ensures Done(cfg, w2, k) { assert Done(cfg, w1, k); }
  }

  lemma IssuedNext(w: World, w1: World, w2: World, plan: Key -> Calls, keys: set<Key>, key: Key)
    requires IssuedFor(w, w1, plan, keys) && plan(key).upload.Some?
    requires forall d <- w2.remote.issued :: d in w1.remote.issued || d == plan(key).upload.value
    ensures IssuedFor(w, w2, plan, keys + {key})
  {
    forall d | d in w2.remote.issued && d !in w.remote.issued
      ensures exists k <- keys + {key} :: plan(k).upload == Some(d) {
      if d in w1.remote.issued {
        var k :| k in keys && plan(k).upload == Some(d);
        assert k in keys + {key};
      } else {
        assert key in keys + {key};
      }
    }
  }

  lemma StillFresh(w: World, w1: World, plan: Key -> Calls, keys: set<Key>, rest: set<Key>)
    requires FreshPlan(w.remote, plan, keys + rest) && IssuedFor(w, w1, plan, keys) && keys !! rest
    ensures FreshPlan(w1.remote, plan, rest) && FreshPlan(w.remote, plan, keys)
    ensures forall k <- rest :: FreshUpload(w1, plan(k))
  {}

  lemma FreshFewer(r: Remote, plan: Key -> Calls, keys: set<Key>, fewer: set<Key>)
    requires FreshPlan(r, plan, keys) && fewer <= keys
    ensures FreshPlan(r, plan, fewer)
  {}

  /** A row still to be handled is as it was. */
  lemma StillPending(cfg: Config, w: World, w1: World, keys: set<Key>, r: SyncState)
    requires BecameDone(cfg, w, w1, keys) && r.key !in keys && r.key in w.db.rows && w.db.rows[r.key].id == r.id
    requires w.db.rows[r.key].status.Pending? && Loadable(w, r.key)
    ensures r.key in w1.db.rows && w1.db.rows[r.key].id == r.id && w1.db.rows[r.key].status.Pending? &&
            Loadable(w1, r.key)
  {}

  lemma NoneDone(cfg: Config, w: World, plan: Key -> Calls)
    ensures BecameDone(cfg, w, w, KeysOf([])) && IssuedFor(w, w, plan, KeysOf([]))
  {}

  lemma KeysOfLast(listed: seq<SyncState>)
    requires listed != []
    ensures var n := |listed| - 1;
            listed[n] in listed && (forall x <- listed[..n] :: x in listed) &&
            KeysOf(listed) == KeysOf(listed[..n]) + {listed[n].key} &&
            (DistinctKeys(listed) ==> DistinctKeys(listed[..n]) && listed[n].key !in KeysOf(listed[..n]))
  {}

  /** With every call succeeding, each listed pending row ends synced with the hash of the content as it is, or
      skipped, and counts as a success; whatever else is in the table or in the document store. */
  lemma {:induction false} AllListedAreDone(cfg: Config, w: World, home: Key -> string, listed: seq<SyncState>,
                                            datasets: Key -> Option<string>, plan: Key -> Calls)
    requires RowsOk(w.db) && AllCallsOk(plan) && Resolves(datasets, home)
    requires DistinctKeys(listed) && Current(w.db, listed)
    requires forall r <- listed :: w.db.rows[r.key].status.Pending? && Loadable(w, r.key)
    ensures var (w', success, fail) := AllSynced(cfg, w, listed, datasets, plan);
            success == |listed| && fail == 0 && RowsOk(w'.db) &&
            BecameDone(cfg, w, w', KeysOf(listed)) && IssuedFor(w, w', plan, KeysOf(listed)) &&
            HealthKept(cfg, home, w, w', FreshPlan(w.remote, plan, KeysOf(listed)))
  {
    hide SyncedListed, Healthy, Done, Loadable, BecameDone, IssuedFor, KeysOf, FreshPlan, DistinctKeys, CallsOk, RowsOk;
    if listed != [] {
      var n := |listed| - 1;
      var front, r := listed[..n], listed[n];
      var keys := KeysOf(front);
      KeysOfLast(listed);
      AllListedAreDone(cfg, w, home, front, datasets, plan);
      var w1 := AllSynced(cfg, w, front, datasets, plan).0;
      StillPending(cfg, w, w1, keys, r);
      if FreshPlan(w.remote, plan, KeysOf(listed)) {
        FreshFewer(w.remote, plan, KeysOf(listed), keys);
        StillFresh(w, w1, plan, keys, {r.key});
      }
      OneMoreDone(cfg, w, w1, home, keys, r, plan);
    } else {
      NoneDone(cfg, w, plan);
    }
  }

  lemma OneMoreDone(cfg: Config, w: World, w1: World, home: Key -> string, keys: set<Key>, r: SyncState,
                    plan: Key -> Calls)
    requires RowsOk(w1.db) && BecameDone(cfg, w, w1, keys) && IssuedFor(w, w1, plan, keys) && r.key !in keys
    requires r.key in w1.db.rows && w1.db.rows[r.key].id == r.id && w1.db.rows[r.key].status.Pending?
    requires Loadable(w1, r.key) && CallsOk(plan(r.key)) && home(r.key) != ""
    ensures var (w2, ok) := SyncedListed(cfg, w1, r, Some(home(r.key)), plan(r.key));
            ok && RowsOk(w2.db) && BecameDone(cfg, w, w2, keys + {r.key}) && IssuedFor(w, w2, plan, keys + {r.key}) &&
            HealthKept(cfg, home, w1, w2, FreshUpload(w1, plan(r.key)))
  {
    hide SyncedListed, Healthy, Done, Loadable, BecameDone, IssuedFor;
    var (w2, ok) := SyncedListed(cfg, w1, r, Some(home(r.key)), plan(r.key));
    ListedIsDone(cfg, w1, home, r, plan(r.key));
    if Healthy(cfg, w1, home) && FreshUpload(w1, plan(r.key)) { ListedKeepsHealthy(cfg, w1, home, r, plan(r.key)); }
    BecameDoneNext(cfg, w, w1, w2, keys, r.key);
    IssuedNext(w, w1, w2, plan, keys, r.key);
  }

  // ----- discovery and resets -----

  /** Discovery adds a pending row for every content found and changes nothing else. */
  lemma {:induction false} DiscoveredRows(cfg: Config, w: World, home: Key -> string, found: seq<(Key, int)>,
                                          plan: Key -> Calls)
    requires RowsOk(w.db) && forall k :: plan(k).readState && plan(k).create
    ensures var w' := Discovered(w, found, plan).0;
            RowsOk(w'.db) && HealthKept(cfg, home, w, w', true) && w'.contents == w.contents && w'.remote == w.remote &&
            (forall f <- found :: f.0 in w'.db.rows) &&
            (forall k <- w'.db.rows :: k !in w.db.rows ==>
             w'.db.rows[k].status.Pending? && exists f <- found :: f.0 == k) &&
            (forall k <- w.db.rows :: k in w'.db.rows && w'.db.rows[k] == w.db.rows[k])
  {
    hide Healthy, Ensured, RowsOk;
    if found != [] {
      var n := |found| - 1;
      var w1 := Discovered(w, found[..n], plan).0;
      assert forall f <- found[..n] :: f in found;
      DiscoveredRows(cfg, w, home, found[..n], plan);
      EnsuredRow(cfg, w1, home, found[n].0, found[n].1, plan(found[n].0));
    }
  }

  lemma EnsuredRow(cfg: Config, w: World, home: Key -> string, key: Key, owner: int, c: Calls)
    requires RowsOk(w.db) && c.readState && c.create
    ensures var w' := Ensured(w, key, owner, c).0;
            RowsOk(w'.db) && HealthKept(cfg, home, w, w', true) && w'.contents == w.contents && w'.remote == w.remote &&
            key in w'.db.rows && w'.db.rows == w.db.rows[key := w'.db.rows[key]] &&
            (if key in w.db.rows then w'.db.rows[key] == w.db.rows[key] else w'.db.rows[key].status.Pending?)
  {
    hide Inv, SyncedOk;
    if Healthy(cfg, w, home) { StepKeepsAll(cfg, w, home, Ensure(key, owner, c)); }
    assert key in w.db.rows ==> w.db.rows == w.db.rows[key := w.db.rows[key]];
  }

  lemma ResetOne(cfg: Config, w: World, home: Key -> string, listed: SyncState, c: Calls)
    requires RowsOk(w.db) && c.mark && listed.key in w.db.rows && w.db.rows[listed.key].id == listed.id
    ensures var (w', err) := ResetRow(w, listed.id, listed.hash, c);
            err.None? && RowsOk(w'.db) && HealthKept(cfg, home, w, w', true) &&
            w'.contents == w.contents && w'.remote == w.remote &&
            w'.db.rows.Keys == w.db.rows.Keys && w'.db.rows[listed.key].status.Pending? &&
            w'.db.rows[listed.key].id == listed.id && w'.db.rows == w.db.rows[listed.key := w'.db.rows[listed.key]]
  {
    hide Inv, SyncedOk, Updated;
    UpdatedIsLocal(w.db, listed.id, ResetPatch(listed.hash, c.now));
    if Healthy(cfg, w, home) { StepKeepsAll(cfg, w, home, Reset(listed, c)); }
  }

  /** The rows of `keys` became pending, under their ids, and the other rows stayed. */
  predicate BecamePending(rows: map<Key, SyncState>, rows': map<Key, SyncState>, keys: set<Key>) {
    rows'.Keys == rows.Keys &&
    (forall k <- rows ::
       rows'[k].id == rows[k].id && if k in keys then rows'[k].status.Pending? else rows'[k] == rows[k])
  }

  lemma BecamePendingNext(rows: map<Key, SyncState>, rows': map<Key, SyncState>, keys: set<Key>, k: Key, r: SyncState)
    requires BecamePending(rows, rows', keys) && k in rows && r.id == rows[k].id && r.status.Pending?
    ensures BecamePending(rows, rows'[k := r], keys + {k})
  {}

  lemma {:induction false} AllResetRows(cfg: Config, w: World, home: Key -> string, listed: seq<SyncState>,
                                        plan: Key -> Calls)
    requires RowsOk(w.db) && (forall k :: plan(k).mark) && Current(w.db, listed)
    ensures var (w', count) := AllReset(w, listed, plan);
            count == |listed| && RowsOk(w'.db) && HealthKept(cfg, home, w, w', true) &&
            w'.contents == w.contents && w'.remote == w.remote && BecamePending(w.db.rows, w'.db.rows, KeysOf(listed))
  {
    hide Healthy, ResetRow, BecamePending, KeysOf, RowsOk;
    if listed != [] {
      var n := |listed| - 1;
      var r := listed[n];
      var w1 := AllReset(w, listed[..n], plan).0;
      KeysOfLast(listed);
      AllResetRows(cfg, w, home, listed[..n], plan);
      PendingKeepsIds(w.db.rows, w1.db.rows, KeysOf(listed[..n]), r.key);
      ResetOne(cfg, w1, home, r, plan(r.key));
      var w2 := ResetRow(w1, r.id, r.hash, plan(r.key)).0;
      BecamePendingNext(w.db.rows, w1.db.rows, KeysOf(listed[..n]), r.key, w2.db.rows[r.key]);
    } else {
      NonePending(w.db.rows);
    }
  }

  lemma NonePending(rows: map<Key, SyncState>)
    ensures BecamePending(rows, rows, KeysOf([]))
  {}

  lemma PendingKeepsIds(rows: map<Key, SyncState>, rows': map<Key, SyncState>, keys: set<Key>, k: Key)
    requires BecamePending(rows, rows', keys) && k in rows
    ensures k in rows' && rows'[k].id == rows[k].id
  {}

  // ----- splitting a listing by type -----

  lemma {:induction false} OfTypeRows(t: ContentType, listed: seq<SyncState>)
    requires DistinctKeys(listed)
    ensures DistinctKeys(OfType(t, listed))
    ensures KeysOf(OfType(t, listed)) == set k | k in KeysOf(listed) && k.ctype == t
  {
    OfTypeKeys(t, listed);
    if listed != [] {
      var n := |listed| - 1;
      OfTypeRows(t, listed[..n]);
      OfTypeKeys(t, listed[..n]);
      OfTypeNext(t, listed);
    }
    KeysOfType(t, listed);
  }

  lemma OfTypeNext(t: ContentType, listed: seq<SyncState>)
    requires DistinctKeys(listed) && listed != [] && DistinctKeys(OfType(t, listed[..|listed| - 1]))
    requires forall x :: x in OfType(t, listed[..|listed| - 1]) <==> x in listed[..|listed| - 1] && x.key.ctype == t
    ensures DistinctKeys(OfType(t, listed))
  {
    var n := |listed| - 1;
    var front := OfType(t, listed[..n]);
    forall i | 0 <= i < |front| ensures front[i].key != listed[n].key {
      assert front[i] in front;
      var j :| 0 <= j < n && listed[j] == front[i];
    }
  }

  lemma KeysOfType(t: ContentType, listed: seq<SyncState>)
    requires forall x :: x in OfType(t, listed) <==> x in listed && x.key.ctype == t
    ensures KeysOf(OfType(t, listed)) == set k | k in KeysOf(listed) && k.ctype == t
  {
    forall k ensures k in KeysOf(OfType(t, listed)) <==> k in KeysOf(listed) && k.ctype == t {
      if k in KeysOf(listed) && k.ctype == t {
        var r :| r in listed && r.key == k;
        assert r in OfType(t, listed);
      }
    }
  }

  // ----- a whole cycle -----

  /** What a favourable cycle needs: every call answers, data sets resolve, every content with
      a pending row can be loaded, and the pending rows fit into one batch.  The world it starts from is any with a
      sound table. */
  ghost predicate Favourable(cfg: Config, w: World, home: Key -> string, batch: nat, cy: Cycle) {
    Answers(cfg, w, batch, cy) && Resolves(cy.datasets, home) &&
    RowsOk(w.db) && AllCallsOk(cy.ensures') && AllCallsOk(cy.resets) && AllCallsOk(cy.syncs) &&
    (forall k <- RowsOf(AfterResets(w, cy).db, Pending) :: Loadable(w, k)) &&
    |RowsOf(AfterResets(w, cy).db, Pending)| <= batch
  }

  /** The uploads of the cycle get fresh ids. */
  ghost predicate FreshCycle(w: World, cy: Cycle) { FreshPlan(w.remote, cy.syncs, AfterResets(w, cy).db.rows.Keys) }

  /** After discovery and resets every content found has a row, and every row is pending or synced. */
  lemma ResetsShape(cfg: Config, w: World, home: Key -> string, batch: nat, cy: Cycle)
    requires Favourable(cfg, w, home, batch, cy)
    ensures var start := AfterResets(w, cy);
            RowsOk(start.db) && HealthKept(cfg, home, w, start, true) &&
            start.contents == w.contents && start.remote == w.remote &&
            (forall f <- cy.memos + cy.attachments :: f.0 in start.db.rows) &&
            (forall k <- start.db.rows :: start.db.rows[k].status.Pending? || start.db.rows[k].status.Synced?) &&
            (forall k <- w.db.rows :: w.db.rows[k].status.Synced? ==>
             k in start.db.rows && start.db.rows[k] == w.db.rows[k])
  {
    hide Healthy, Discovered, AllReset, Loadable, BecamePending, KeysOf, RowsOk;
    var d1 := Discovered(w, cy.memos, cy.ensures').0;
    DiscoveredRows(cfg, w, home, cy.memos, cy.ensures');
    DiscoveredRows(cfg, d1, home, cy.attachments, cy.ensures');
    var d2 := AfterDiscovery(w, cy);
    ResetCovers(d2.db, cy.failed, cy.skipped);
    AllResetRows(cfg, d2, home, cy.failed + cy.skipped, cy.resets);
    NoneLeft(d2.db, AfterResets(w, cy).db, KeysOf(cy.failed + cy.skipped));
  }

  lemma ResetCovers(db: Db, failed: seq<SyncState>, skipped: seq<SyncState>)
    requires FullAnswer(db, Failed, failed) && FullAnswer(db, Skipped, skipped)
    ensures Current(db, failed + skipped) && KeysOf(failed + skipped) == RowsOf(db, Failed) + RowsOf(db, Skipped)
  {
    AnswerIsComplete(db, Failed, failed);
    AnswerIsComplete(db, Skipped, skipped);
    assert KeysOf(failed + skipped) == KeysOf(failed) + KeysOf(skipped);
  }

  lemma NoneLeft(db: Db, db': Db, keys: set<Key>)
    requires BecamePending(db.rows, db'.rows, keys) && keys == RowsOf(db, Failed) + RowsOf(db, Skipped)
    ensures db'.rows.Keys == db.rows.Keys
    ensures forall k <- db'.rows :: db'.rows[k].status.Pending? || db'.rows[k].status.Synced?
    ensures forall k <- db.rows :: db.rows[k].status.Synced? ==> db'.rows[k] == db.rows[k]
  {}

  /** A listing of all pending rows, narrowed to one type. */
  lemma PendingOfType(db: Db, limit: nat, listed: seq<SyncState>, t: ContentType)
    requires NewestAnswer(db, Pending, limit, listed) && |RowsOf(db, Pending)| <= limit
    ensures var l := OfType(t, listed);
            DistinctKeys(l) && Current(db, l) && KeysOf(l) == (set k | k in RowsOf(db, Pending) && k.ctype == t) &&
            |l| == |KeysOf(l)| && forall r <- l :: db.rows[r.key].status.Pending?
  {
    AnswerIsComplete(db, Pending, listed);
    OfTypeKeys(t, listed);
    OfTypeRows(t, listed);
    KeysCount(OfType(t, listed));
  }

  function PendingOf(db: Db, t: ContentType): set<Key> { set k | k in RowsOf(db, Pending) && k.ctype == t }

  lemma MemosDone(cfg: Config, w: World, home: Key -> string, batch: nat, cy: Cycle)
    requires Favourable(cfg, w, home, batch, cy)
    ensures var start, mid := AfterResets(w, cy), AfterMemos(cfg, w, cy);
            var keys := PendingOf(start.db, MemoType);
            RowsOk(mid.db) && BecameDone(cfg, start, mid, keys) && IssuedFor(start, mid, cy.syncs, keys) &&
            HealthKept(cfg, home, start, mid, FreshCycle(w, cy)) &&
            AllSynced(cfg, start, OfType(MemoType, cy.pendingMemos), Named(cy.datasets), cy.syncs) == (mid, |keys|, 0)
  {
    hide Healthy, AfterResets, OfType, KeysOf, RowsOf, AllSynced, BecameDone, IssuedFor, FreshPlan, DistinctKeys,
         RowsOk;
    ResetsShape(cfg, w, home, batch, cy);
    var start := AfterResets(w, cy);
    var listed := OfType(MemoType, cy.pendingMemos);
    PendingOfType(start.db, batch, cy.pendingMemos, MemoType);
    assert KeysOf(listed) <= RowsOf(start.db, Pending) by { PendingAreListed(start.db, MemoType); }
    LoadableRows(w, start, RowsOf(start.db, Pending), listed);
    PendingAreRows(start.db, MemoType);
    if FreshCycle(w, cy) { FreshFewer(w.remote, cy.syncs, start.db.rows.Keys, KeysOf(listed)); }
    AllListedAreDone(cfg, start, home, listed, Named(cy.datasets), cy.syncs);
  }

  lemma PendingAreListed(db: Db, t: ContentType)
    ensures PendingOf(db, t) <= RowsOf(db, Pending)
  {}

  lemma PendingAreRows(db: Db, t: ContentType)
    ensures PendingOf(db, t) <= db.rows.Keys
  {}

  lemma LoadableRows(w: World, start: World, pending: set<Key>, listed: seq<SyncState>)
    requires start.contents == w.contents && (forall k <- pending :: Loadable(w, k)) && KeysOf(listed) <= pending
    ensures forall r <- listed :: Loadable(start, r.key)
  {
    forall r | r in listed ensures Loadable(start, r.key) {
      assert r.key in KeysOf(listed);
      LoadableCarries(w, start, r.key);
    }
  }

  lemma LoadableCarries(w: World, w': World, k: Key)
    requires w.contents == w'.contents
    ensures Loadable(w, k) <==> Loadable(w', k)
  {}

  /** Once the pending memos are done, the pending rows are the pending attachments. */
  lemma AttachmentsRemain(cfg: Config, start: World, mid: World)
    requires BecameDone(cfg, start, mid, PendingOf(start.db, MemoType))
    ensures RowsOf(mid.db, Pending) == PendingOf(start.db, AttachmentType) == PendingOf(mid.db, AttachmentType)
    ensures |RowsOf(start.db, Pending)| == |PendingOf(start.db, MemoType)| + |PendingOf(start.db, AttachmentType)|
    ensures |RowsOf(mid.db, Pending)| <= |RowsOf(start.db, Pending)|
  {
    hide Done, Unparseable;
    var memos, atts := PendingOf(start.db, MemoType), PendingOf(start.db, AttachmentType);
    forall k | k in memos ensures k !in RowsOf(mid.db, Pending) { DoneStatus(cfg, mid, k); }
    assert RowsOf(mid.db, Pending) == atts;
    assert PendingOf(mid.db, AttachmentType) == atts;
    PendingCount(start.db);
  }

  lemma PendingCount(db: Db)
    ensures |RowsOf(db, Pending)| == |PendingOf(db, MemoType)| + |PendingOf(db, AttachmentType)|
  {
    var memos, atts := PendingOf(db, MemoType), PendingOf(db, AttachmentType);
    assert RowsOf(db, Pending) == memos + atts && memos !! atts;
  }

  lemma AttachmentsDone(cfg: Config, w: World, home: Key -> string, batch: nat, cy: Cycle)
    requires Favourable(cfg, w, home, batch, cy)
    ensures var mid, end := AfterMemos(cfg, w, cy), AfterAttachments(cfg, w, cy);
            var keys := PendingOf(AfterResets(w, cy).db, AttachmentType);
            RowsOk(end.db) && BecameDone(cfg, mid, end, keys) && HealthKept(cfg, home, mid, end, FreshCycle(w, cy)) &&
            AllSynced(cfg, mid, OfType(AttachmentType, cy.pendingAttachments), Named(cy.datasets), cy.syncs)
              == (end, |keys|, 0)
  {
    hide Healthy, AfterResets, AfterMemos, OfType, KeysOf, RowsOf, AllSynced, BecameDone, IssuedFor, FreshPlan,
         DistinctKeys, RowsOk;
    ResetsShape(cfg, w, home, batch, cy);
    MemosDone(cfg, w, home, batch, cy);
    var start, mid := AfterResets(w, cy), AfterMemos(cfg, w, cy);
    var memos, atts := PendingOf(start.db, MemoType), PendingOf(start.db, AttachmentType);
    AttachmentsRemain(cfg, start, mid);
    var listed := OfType(AttachmentType, cy.pendingAttachments);
    PendingOfType(mid.db, batch, cy.pendingAttachments, AttachmentType);
    BecameDoneKeeps(cfg, start, mid, memos);
    assert KeysOf(listed) <= RowsOf(start.db, Pending) by { PendingAreListed(start.db, AttachmentType); }
    LoadableRows(w, mid, RowsOf(start.db, Pending), listed);
    assert memos !! atts && memos + atts <= start.db.rows.Keys by { PendingSplit(start.db); }
    if FreshCycle(w, cy) {
      FreshFewer(w.remote, cy.syncs, start.db.rows.Keys, memos + atts);
      StillFresh(start, mid, cy.syncs, memos, atts);
    }
    AllListedAreDone(cfg, mid, home, listed, Named(cy.datasets), cy.syncs);
  }

  lemma BecameDoneKeeps(cfg: Config, w: World, w': World, keys: set<Key>)
    requires BecameDone(cfg, w, w', keys)
    ensures w'.contents == w.contents && w'.db.rows.Keys == w.db.rows.Keys
  {}

  lemma PendingSplit(db: Db)
    ensures PendingOf(db, MemoType) !! PendingOf(db, AttachmentType)
    ensures PendingOf(db, MemoType) + PendingOf(db, AttachmentType) <= db.rows.Keys
  {}

  lemma DoneTwice(cfg: Config, start: World, mid: World, end: World)
    requires BecameDone(cfg, start, mid, PendingOf(start.db, MemoType))
    requires BecameDone(cfg, mid, end, PendingOf(start.db, AttachmentType))
    requires forall k <- start.db.rows :: start.db.rows[k].status.Pending? || start.db.rows[k].status.Synced?
    ensures BecameDone(cfg, start, end, RowsOf(start.db, Pending))
    ensures RowsOf(end.db, Failed) == {}
    ensures forall k <- end.db.rows ::
              end.db.rows[k].status.Synced? || (end.db.rows[k].status.Skipped? && Unparseable(end, k))
  {
    hide Done;
    var memos, atts := PendingOf(start.db, MemoType), PendingOf(start.db, AttachmentType);
    forall k | k in RowsOf(start.db, Pending) ensures Done(cfg, end, k) {
      if k.ctype.MemoType? {
        assert k in memos && k !in atts;
        DoneCarries(cfg, mid, end, k);
      } else {
        assert k in atts;
      }
    }
    forall k | k in end.db.rows
      ensures end.db.rows[k].status.Synced? || (end.db.rows[k].status.Skipped? && Unparseable(end, k))
    {
      if k in RowsOf(start.db, Pending) { DoneStatus(cfg, end, k); }
    }
  }

  lemma DoneStatus(cfg: Config, w: World, k: Key)
    requires Done(cfg, w, k)
    ensures k in w.db.rows && (w.db.rows[k].status.Synced? || (w.db.rows[k].status.Skipped? && Unparseable(w, k)))
  {}

  lemma DoneCarries(cfg: Config, w: World, w': World, k: Key)
    requires w.contents == w'.contents && Done(cfg, w, k) && k in w'.db.rows && k in w.db.rows &&
             w'.db.rows[k] == w.db.rows[k]
    ensures Done(cfg, w', k)
  {}

  /** One favourable cycle leaves every content it found, and every row there was, synced or skipped: skipped
      exactly when it is an attachment of an unparseable type.  The rows that were pending carry the hash of
      the content as it is, the others are not touched, every pending row counts as one success of its kind, and every
      new and every reset row as a discovery.  Contents that are in a bad state, stranded or with documents left over,
      do not hinder this; and with fresh ids a healthy world stays healthy. */
  lemma CycleDrains(cfg: Config, w: World, home: Key -> string, batch: nat, cy: Cycle)
    requires Favourable(cfg, w, home, batch, cy)
    ensures var start, (end, n) := AfterResets(w, cy), AfterCycle(cfg, w, cy);
            RowsOk(end.db) && BecameDone(cfg, start, end, RowsOf(start.db, Pending)) &&
            HealthKept(cfg, home, w, end, FreshCycle(w, cy)) &&
            (forall f <- cy.memos + cy.attachments :: f.0 in end.db.rows) &&
            (forall k <- end.db.rows ::
               end.db.rows[k].status.Synced? || (end.db.rows[k].status.Skipped? && Unparseable(end, k))) &&
            n.memoSuccess == |PendingOf(start.db, MemoType)| &&
            n.attachmentSuccess == |PendingOf(start.db, AttachmentType)| &&
            n.discovered == |end.db.rows| - |w.db.rows| + |RowsOf(AfterDiscovery(w, cy).db, Failed)| +
                            |RowsOf(AfterDiscovery(w, cy).db, Skipped)| &&
            n.memoFail == n.attachmentFail == n.retrySuccess == n.retryFail == 0
  {
    hide Healthy, OfType, KeysOf, RowsOf, AllSynced, BecameDone, AllReset, Discovered, Resolves, FreshCycle, Loadable,
         Unparseable, RowsOk;
    var start, mid, end := AfterResets(w, cy), AfterMemos(cfg, w, cy), AfterAttachments(cfg, w, cy);
    ResetsShape(cfg, w, home, batch, cy);
    MemosDone(cfg, w, home, batch, cy);
    AttachmentsDone(cfg, w, home, batch, cy);
    AttachmentsRemain(cfg, start, mid);
    DoneTwice(cfg, start, mid, end);
    BecameDoneKeeps(cfg, start, end, RowsOf(start.db, Pending));
    NothingToRetry(cfg, w, end, batch, cy);
    CycleDiscovers(cfg, w, home, batch, cy);
    KeysCardinality(start.db, end.db);
  }

  lemma KeysCardinality(a: Db, b: Db)
    ensures a.rows.Keys == b.rows.Keys ==> |a.rows| == |b.rows|
  {
    assert |a.rows| == |a.rows.Keys| && |b.rows| == |b.rows.Keys|;
  }

  /** Discovery counts the rows it makes, however its calls turn out. */
  lemma {:induction false} DiscoveryCountsNewRows(w: World, found: seq<(Key, int)>, plan: Key -> Calls)
    ensures var (w', count) := Discovered(w, found, plan); count == |w'.db.rows| - |w.db.rows|
  {
    if found != [] {
      var n := |found| - 1;
      DiscoveryCountsNewRows(w, found[..n], plan);
      EnsuredCount(Discovered(w, found[..n], plan).0, found[n].0, found[n].1, plan(found[n].0));
    }
  }

  lemma EnsuredCount(w: World, key: Key, owner: int, c: Calls)
    ensures var (w', err) := Ensured(w, key, owner, c);
            |w'.db.rows| == |w.db.rows| + if err.None? && key !in w.db.rows then 1 else 0
  {
    var (w', err) := Ensured(w, key, owner, c);
    if err.None? && key !in w.db.rows {
      assert w'.db.rows.Keys == w.db.rows.Keys + {key};
      assert |w'.db.rows| == |w'.db.rows.Keys| && |w.db.rows| == |w.db.rows.Keys|;
    }
  }

  lemma CycleDiscovers(cfg: Config, w: World, home: Key -> string, batch: nat, cy: Cycle)
    requires Favourable(cfg, w, home, batch, cy)
    ensures AfterCycle(cfg, w, cy).1.discovered ==
            |AfterResets(w, cy).db.rows| - |w.db.rows| + |RowsOf(AfterDiscovery(w, cy).db, Failed)| +
            |RowsOf(AfterDiscovery(w, cy).db, Skipped)|
  {
    hide Healthy, Discovered, AllReset, Loadable, KeysOf, RowsOk, RowsOf, BecamePending, NewestAnswer, AllSynced,
         OfType;
    var d1, d2 := Discovered(w, cy.memos, cy.ensures').0, AfterDiscovery(w, cy);
    DiscoveryCountsNewRows(w, cy.memos, cy.ensures');
    DiscoveryCountsNewRows(d1, cy.attachments, cy.ensures');
    DiscoveredRows(cfg, w, home, cy.memos, cy.ensures');
    DiscoveredRows(cfg, d1, home, cy.attachments, cy.ensures');
    ResetCovers(d2.db, cy.failed, cy.skipped);
    AllResetRows(cfg, d2, home, cy.failed + cy.skipped, cy.resets);
    PendingKeys(d2.db.rows, AfterResets(w, cy).db.rows, KeysOf(cy.failed + cy.skipped));
  }

  lemma PendingKeys(rows: map<Key, SyncState>, rows': map<Key, SyncState>, keys: set<Key>)
    requires BecamePending(rows, rows', keys)
    ensures |rows| == |rows'|
  {
    assert |rows| == |rows.Keys| && |rows'| == |rows'.Keys|;
  }

  /** However the calls of a cycle turn out, every row it handles counts once, as a success or as a failure of its
      kind. */
  lemma CycleCountsEveryRow(cfg: Config, w: World, cy: Cycle)
    ensures var n := AfterCycle(cfg, w, cy).1;
            n.memoSuccess + n.memoFail == |OfType(MemoType, cy.pendingMemos)| &&
            n.attachmentSuccess + n.attachmentFail == |OfType(AttachmentType, cy.pendingAttachments)| &&
            n.retrySuccess + n.retryFail == |Due(cfg, cy.retries, cy.now)|
  {
    hide AllSynced, Discovered, AllReset, OfType, Due;
    var w1, w2 := AfterResets(w, cy), AfterMemos(cfg, w, cy);
    ListCounts(cfg, w1, OfType(MemoType, cy.pendingMemos), Named(cy.datasets), cy.syncs);
    ListCounts(cfg, w2, OfType(AttachmentType, cy.pendingAttachments), Named(cy.datasets), cy.syncs);
    ListCounts(cfg, AfterAttachments(cfg, w, cy), Due(cfg, cy.retries, cy.now), cy.datasets, cy.again);
  }

  lemma {:induction false} ListCounts(cfg: Config, w: World, listed: seq<SyncState>, datasets: Key -> Option<string>,
                                      plan: Key -> Calls)
    ensures var (_, success, fail) := AllSynced(cfg, w, listed, datasets, plan); success + fail == |listed|
  {
    hide SyncedListed;
    if listed != [] { ListCounts(cfg, w, listed[..|listed| - 1], datasets, plan); }
  }

  /** A cycle leaves a synced row as it is, whatever the hash of its content is now. */
  lemma SyncedRowsStay(cfg: Config, w: World, home: Key -> string, batch: nat, cy: Cycle, k: Key)
    requires Favourable(cfg, w, home, batch, cy)
    requires k in w.db.rows && w.db.rows[k].status.Synced?
    ensures var end := AfterCycle(cfg, w, cy).0; k in end.db.rows && end.db.rows[k] == w.db.rows[k]
  {
    hide Healthy, Favourable, AfterCycle, AfterResets, Done;
    ResetsShape(cfg, w, home, batch, cy);
    CycleDrains(cfg, w, home, batch, cy);
    assert k !in RowsOf(AfterResets(w, cy).db, Pending);
  }

  /** An event for a content while the service is down, and a favourable cycle once it is up again: the content ends
      up synchronised as it is now if and only if the event did not find a synced row of another hash.  So a
      creation is never lost, and an edit of a content that was synced always is. */
  lemma OutageKeepsEventIff(cfg: Config, w: World, home: Key -> string, batch: nat, cy: Cycle, event: EventType,
                            key: Key, user: int, dataset: Option<string>, ensure: Calls, c: Calls)
    requires RowsOk(w.db) && !event.DeleteEvent? && ensure.readState && ensure.create
    requires key in w.contents && !Unparseable(w, key)
    requires Favourable(cfg, EventHandled(cfg, w, event, key, user, false, dataset, ensure, c), home, batch, cy)
    ensures var end := AfterCycle(cfg, EventHandled(cfg, w, event, key, user, false, dataset, ensure, c), cy).0;
            Done(cfg, end, key) <==>
            !(key in w.db.rows && w.db.rows[key].status.Synced? &&
              w.db.rows[key].hash != cfg.hash(TextOf(w.contents[key])))
  {
    hide Healthy, Favourable, AfterCycle, AfterResets, RowsOf;
    var w1 := EventHandled(cfg, w, event, key, user, false, dataset, ensure, c);
    assert w1.contents == w.contents && key in w1.db.rows;
    ResetsShape(cfg, w1, home, batch, cy);
    CycleDrains(cfg, w1, home, batch, cy);
    var start, end := AfterResets(w1, cy), AfterCycle(cfg, w1, cy).0;
    assert key in start.db.rows by { RowsStay(cfg, w1, home, batch, cy, key); }
    if w1.db.rows[key].status.Synced? {
      SyncedRowsStay(cfg, w1, home, batch, cy, key);
    } else {
      assert start.db.rows[key].status.Pending? by { UnsyncedBecomePending(cfg, w1, home, batch, cy, key); }
      assert key in RowsOf(start.db, Pending) by { PendingListed(start.db, key); }
    }
  }

  lemma PendingListed(db: Db, k: Key)
    requires k in db.rows && db.rows[k].status.Pending?
    ensures k in RowsOf(db, Pending)
  {}

  /** No row is lost on the way to the first listing, and no row becomes synced. */
  lemma RowsStay(cfg: Config, w: World, home: Key -> string, batch: nat, cy: Cycle, k: Key)
    requires Favourable(cfg, w, home, batch, cy) && k in w.db.rows
    ensures k in AfterResets(w, cy).db.rows &&
            (AfterResets(w, cy).db.rows[k].status.Synced? ==> w.db.rows[k].status.Synced?)
  {
    hide Healthy, Discovered, AllReset, Loadable, KeysOf, RowsOk, AfterResets, BecamePending, NewestAnswer, FullAnswer,
         Current;
    assert RowsOk(w.db) && AllCallsOk(cy.ensures') && AllCallsOk(cy.resets);
    var d1, d2 := Discovered(w, cy.memos, cy.ensures').0, AfterDiscovery(w, cy);
    DiscoveredRows(cfg, w, home, cy.memos, cy.ensures');
    DiscoveredRows(cfg, d1, home, cy.attachments, cy.ensures');
    ResetCovers(d2.db, cy.failed, cy.skipped);
    AllResetRows(cfg, d2, home, cy.failed + cy.skipped, cy.resets);
    assert AfterResets(w, cy) == AllReset(d2, cy.failed + cy.skipped, cy.resets).0 by { ResetsFollow(w, cy); }
    StaysUnlessPending(d2.db.rows, AfterResets(w, cy).db.rows, KeysOf(cy.failed + cy.skipped), k);
  }

  lemma ResetsFollow(w: World, cy: Cycle)
    ensures AfterResets(w, cy) == AllReset(AfterDiscovery(w, cy), cy.failed + cy.skipped, cy.resets).0
  {}

  lemma StaysUnlessPending(rows: map<Key, SyncState>, rows': map<Key, SyncState>, keys: set<Key>, k: Key)
    requires BecamePending(rows, rows', keys) && k in rows
    ensures k in rows' && (rows'[k].status.Synced? ==> rows[k].status.Synced?)
  {}

  lemma UnsyncedBecomePending(cfg: Config, w: World, home: Key -> string, batch: nat, cy: Cycle, k: Key)
    requires Favourable(cfg, w, home, batch, cy) && k in w.db.rows && !w.db.rows[k].status.Synced?
    ensures k in AfterResets(w, cy).db.rows && AfterResets(w, cy).db.rows[k].status.Pending?
  {
    hide Favourable, AfterResets;
    RowsStay(cfg, w, home, batch, cy, k);
    ResetsShape(cfg, w, home, batch, cy);
  }

  lemma NothingToRetry(cfg: Config, w: World, end: World, batch: nat, cy: Cycle)
    requires Answers(cfg, w, batch, cy) && end == AfterAttachments(cfg, w, cy) && RowsOf(end.db, Failed) == {}
    ensures AllSynced(cfg, end, Due(cfg, cy.retries, cy.now), cy.datasets, cy.again) == (end, 0, 0)
  {
    assert cy.retries == [];
  }

  // ----- the cycles after it -----

  /** Every row is synced or belongs to an attachment that is never uploaded. */
  ghost predicate Quiet(w: World) {
    RowsOk(w.db) && forall k <- w.db.rows :: w.db.rows[k].status.Synced? || Unparseable(w, k)
  }

  /** Nothing but the state table differs, with the same rows under the same ids. */
  predicate OnlyMarks(w: World, w': World) {
    w'.remote == w.remote && w'.contents == w.contents && w'.db.ids == w.db.ids && w'.db.rows.Keys == w.db.rows.Keys
  }

  /** The listed rows are of attachments that are never uploaded. */
  ghost predicate AllUnparseable(w: World, listed: seq<SyncState>) {
    forall r <- listed :: Unparseable(w, r.key) && r.id < |w.db.ids| && w.db.ids[r.id] == r.key
  }

  lemma QuietUpdate(w: World, id: nat, p: Patch)
    requires Quiet(w) && id < |w.db.ids| && Unparseable(w, w.db.ids[id])
    ensures var w' := w.(db := Updated(w.db, id, p)); Quiet(w') && OnlyMarks(w, w')
  {
    hide Updated, Patched, Unparseable;
    UpdatedIsLocal(w.db, id, p);
    var w' := w.(db := Updated(w.db, id, p));
    forall k | k in w'.db.rows ensures Unparseable(w', k) <==> Unparseable(w, k) { UnparseableCarries(w, w', k); }
    PatchKeepsIdentity(w.db, id, p);
  }

  lemma PatchKeepsIdentity(db: Db, id: nat, p: Patch)
    ensures Updated(db, id, p).rows.Keys == db.rows.Keys
    ensures forall k <- db.rows ::
              Updated(db, id, p).rows[k].key == db.rows[k].key && Updated(db, id, p).rows[k].id == db.rows[k].id
  {}

  lemma UnparseableCarries(w: World, w': World, k: Key)
    requires w.contents == w'.contents
    ensures Unparseable(w, k) <==> Unparseable(w', k)
  {}

  /** However the calls turn out, synchronising such a row uploads and deletes nothing. */
  lemma QuietListed(cfg: Config, w: World, listed: SyncState, dataset: Option<string>, c: Calls)
    requires Quiet(w) && AllUnparseable(w, [listed])
    ensures var w' := SyncedListed(cfg, w, listed, dataset, c).0; Quiet(w') && OnlyMarks(w, w')
  {
    hide Updated, SyncedContent, Quiet, FailedPatch, Pushed;
    assert listed in [listed];
    if dataset.Some? {
      var key := listed.key;
      SyncedContentCases(cfg, w, key, dataset.value, c);
      var (w1, err) := SyncedContent(cfg, w, key, dataset.value, c);
      if Skips(w, key, c) {
        assert w.db.rows[key].id < |w.db.ids| && w.db.ids[w.db.rows[key].id] == key by { QuietRow(w, key); }
        QuietUpdate(w, w.db.rows[key].id, SkippedPatch(SkipReason(w.contents[key].mime), c.now));
      }
      if err.Some? { QuietUpdate(w1, listed.id, FailedPatch(cfg, listed.retryCount, err.value, c.now)); }
    }
  }

  lemma QuietRow(w: World, k: Key)
    requires Quiet(w) && k in w.db.rows
    ensures w.db.rows[k].id < |w.db.ids| && w.db.ids[w.db.rows[k].id] == k
  {}

  lemma MarksCompose(w: World, w1: World, w2: World, listed: seq<SyncState>)
    requires OnlyMarks(w, w1) && AllUnparseable(w, listed)
    ensures AllUnparseable(w1, listed) && (OnlyMarks(w1, w2) ==> OnlyMarks(w, w2))
  {}

  lemma {:induction false} QuietSynced(cfg: Config, w: World, listed: seq<SyncState>, datasets: Key -> Option<string>,
                                       plan: Key -> Calls)
    requires Quiet(w) && AllUnparseable(w, listed)
    ensures var w' := AllSynced(cfg, w, listed, datasets, plan).0; Quiet(w') && OnlyMarks(w, w')
  {
    hide SyncedListed, Quiet, OnlyMarks, Unparseable;
    if listed != [] {
      var n := |listed| - 1;
      var w1 := AllSynced(cfg, w, listed[..n], datasets, plan).0;
      QuietSynced(cfg, w, listed[..n], datasets, plan);
      var w2 := SyncedListed(cfg, w1, listed[n], datasets(listed[n].key), plan(listed[n].key)).0;
      assert AllUnparseable(w, [listed[n]]);
      MarksCompose(w, w1, w2, [listed[n]]);
      QuietListed(cfg, w1, listed[n], datasets(listed[n].key), plan(listed[n].key));
      MarksCompose(w, w1, w2, listed);
    } else {
      MarksReflexive(w);
    }
  }

  lemma MarksReflexive(w: World)
    ensures OnlyMarks(w, w)
  {}

  lemma {:induction false} QuietReset(w: World, listed: seq<SyncState>, plan: Key -> Calls)
    requires Quiet(w) && AllUnparseable(w, listed)
    ensures var w' := AllReset(w, listed, plan).0; Quiet(w') && OnlyMarks(w, w')
  {
    hide Updated, Quiet, OnlyMarks, Unparseable;
    if listed != [] {
      var n := |listed| - 1;
      var r := listed[n];
      var w1 := AllReset(w, listed[..n], plan).0;
      QuietReset(w, listed[..n], plan);
      var w2 := ResetRow(w1, r.id, r.hash, plan(r.key)).0;
      assert AllUnparseable(w, [r]);
      MarksCompose(w, w1, w2, [r]);
      assert r in [r];
      if plan(r.key).mark { QuietUpdate(w1, r.id, ResetPatch(r.hash, plan(r.key).now)); }
      MarksReflexive(w1);
      MarksCompose(w, w1, w2, listed);
    } else {
      MarksReflexive(w);
    }
  }

  /** Rows listed as not synced are rows of unparseable attachments. */
  lemma QuietAnswer(w: World, status: Status, listed: seq<SyncState>)
    requires Quiet(w) && Answer(w.db, status, listed) && !status.Synced?
    ensures AllUnparseable(w, listed)
  {
    hide Unparseable;
  }

  lemma {:induction false} NothingDiscovered(w: World, found: seq<(Key, int)>, plan: Key -> Calls)
    requires forall f <- found :: f.0 in w.db.rows
    ensures Discovered(w, found, plan).0 == w
  {
    if found != [] { NothingDiscovered(w, found[..|found| - 1], plan); }
  }

  lemma SomeUnparseable(w: World, listed: seq<SyncState>, fewer: seq<SyncState>)
    requires AllUnparseable(w, listed) && forall r <- fewer :: r in listed
    ensures AllUnparseable(w, fewer)
  {}

  /** A cycle that finds no new content uploads and deletes nothing, however its calls turn out. */
  lemma QuietCycle(cfg: Config, w: World, batch: nat, cy: Cycle)
    requires Quiet(w) && Answers(cfg, w, batch, cy) && forall f <- cy.memos + cy.attachments :: f.0 in w.db.rows
    ensures var w' := AfterCycle(cfg, w, cy).0; Quiet(w') && OnlyMarks(w, w')
  {
    hide Quiet, OnlyMarks, Discovered, AllReset, AllSynced, OfType, Due, AllUnparseable, RowsOf, DistinctKeys;
    MarksReflexive(w);
    NothingDiscovered(w, cy.memos, cy.ensures');
    NothingDiscovered(w, cy.attachments, cy.ensures');
    var w1, w2, w3 := AfterResets(w, cy), AfterMemos(cfg, w, cy), AfterAttachments(cfg, w, cy);
    assert Answer(w.db, Failed, cy.failed) && Answer(w.db, Skipped, cy.skipped);
    QuietAnswer(w, Failed, cy.failed);
    QuietAnswer(w, Skipped, cy.skipped);
    UnparseableConcat(w, cy.failed, cy.skipped);
    QuietReset(w, cy.failed + cy.skipped, cy.resets);
    QuietAnswer(w1, Pending, cy.pendingMemos);
    OfTypeKeys(MemoType, cy.pendingMemos);
    SomeUnparseable(w1, cy.pendingMemos, OfType(MemoType, cy.pendingMemos));
    QuietSynced(cfg, w1, OfType(MemoType, cy.pendingMemos), Named(cy.datasets), cy.syncs);
    QuietAnswer(w2, Pending, cy.pendingAttachments);
    OfTypeKeys(AttachmentType, cy.pendingAttachments);
    SomeUnparseable(w2, cy.pendingAttachments, OfType(AttachmentType, cy.pendingAttachments));
    QuietSynced(cfg, w2, OfType(AttachmentType, cy.pendingAttachments), Named(cy.datasets), cy.syncs);
    QuietAnswer(w3, Failed, cy.retries);
    SomeUnparseable(w3, cy.retries, Due(cfg, cy.retries, cy.now));
    QuietSynced(cfg, w3, Due(cfg, cy.retries, cy.now), cy.datasets, cy.again);
    MarksChain(w, w1, w2, w3);
    MarksChain(w, w3, AfterCycle(cfg, w, cy).0, AfterCycle(cfg, w, cy).0);
  }

  lemma UnparseableConcat(w: World, a: seq<SyncState>, b: seq<SyncState>)
    requires AllUnparseable(w, a) && AllUnparseable(w, b)
    ensures AllUnparseable(w, a + b)
  {}

  lemma MarksChain(a: World, b: World, c: World, d: World)
    ensures OnlyMarks(a, b) && OnlyMarks(b, c) && OnlyMarks(c, d) ==> OnlyMarks(a, d)
    ensures OnlyMarks(d, d)
  {}

  function AfterCycles(cfg: Config, w: World, cycles: seq<Cycle>): World
    decreases |cycles|
  {
    if cycles == [] then w else AfterCycles(cfg, AfterCycle(cfg, w, cycles[0]).0, cycles[1..])
  }

  /** Cycles that get the database's answers and find only contents that have rows. */
  ghost predicate NothingNew(cfg: Config, w: World, batch: nat, cycles: seq<Cycle>)
    decreases |cycles|
  {
    cycles == [] ||
    (Answers(cfg, w, batch, cycles[0]) && (forall f <- cycles[0].memos + cycles[0].attachments :: f.0 in w.db.rows) &&
     NothingNew(cfg, AfterCycle(cfg, w, cycles[0]).0, batch, cycles[1..]))
  }

  lemma {:induction false} QuietCycles(cfg: Config, w: World, batch: nat, cycles: seq<Cycle>)
    requires Quiet(w) && NothingNew(cfg, w, batch, cycles)
    ensures OnlyMarks(w, AfterCycles(cfg, w, cycles))
    decreases |cycles|
  {
    hide Quiet, OnlyMarks, Answers, AfterCycle;
    if cycles == [] {
      MarksReflexive(w);
    } else {
      QuietCycle(cfg, w, batch, cycles[0]);
      var w1 := AfterCycle(cfg, w, cycles[0]).0;
      QuietCycles(cfg, w1, batch, cycles[1..]);
      MarksChain(w, w1, AfterCycles(cfg, w, cycles), AfterCycles(cfg, w, cycles));
    }
  }

  /** After a favourable cycle, any number of further cycles on unchanged contents uploads and deletes nothing:
      skipped rows are reset and skipped again. */
  lemma LaterCyclesUploadNothing(cfg: Config, w: World, home: Key -> string, batch: nat, cy: Cycle, later: seq<Cycle>)
    requires Favourable(cfg, w, home, batch, cy)
    requires NothingNew(cfg, AfterCycle(cfg, w, cy).0, batch, later)
    ensures AfterCycles(cfg, AfterCycle(cfg, w, cy).0, later).remote == AfterCycle(cfg, w, cy).0.remote
  {
    hide Favourable, AfterCycle, Answers, NothingNew, RowsOf, BecameDone, AfterResets, Unparseable, RowsOk, HealthKept;
    CycleDrains(cfg, w, home, batch, cy);
    var end := AfterCycle(cfg, w, cy).0;
    QuietCycles(cfg, end, batch, later);
  }
}
