/** The orchestrator: events, batch cycles, and what one successful cycle achieves. */
module SyncBatch {
  import opened Options
  import opened SyncModel
  import opened SyncServices
  import H = HealthChecker

  datatype EventType = Create | Update | DeleteEvent

  /** What one batch cycle meets when the service is healthy: the answers of its queries, in order, and how its calls
      turn out.  A query that fails counts as one with an empty answer. */
  datatype Cycle = Cycle(memos: seq<(Key, int)>, attachments: seq<(Key, int)>,
                         failed: seq<SyncState>, skipped: seq<SyncState>,
                         pendingMemos: seq<SyncState>, pendingAttachments: seq<SyncState>, retries: seq<SyncState>,
                         ensures': Key -> Calls, resets: Key -> Calls, syncs: Key -> Calls, again: Key -> Calls,
                         datasets: Key -> Option<string>, now: int)

  datatype Counts = Counts(discovered: nat, memoSuccess: nat, memoFail: nat, attachmentSuccess: nat,
                           attachmentFail: nat, retrySuccess: nat, retryFail: nat)

  const NO_COUNTS := Counts(0, 0, 0, 0, 0, 0, 0)

  /** The batch refuses a data set without a name; a retry does not. */
  function Named(datasets: Key -> Option<string>): Key -> Option<string> {
    k => if datasets(k) == Some("") then None else datasets(k)
  }

  /** A row for every content found without one; the count is of new rows. */
  function Discovered(w: World, found: seq<(Key, int)>, plan: Key -> Calls): (World, nat) {
    if found == [] then (w, 0)
    else
      var n := |found| - 1;
      var (w1, count) := Discovered(w, found[..n], plan);
      var (w2, err) := Ensured(w1, found[n].0, found[n].1, plan(found[n].0));
      (w2, if err.None? && found[n].0 !in w1.db.rows then count + 1 else count)
  }

  function AfterDiscovery(w: World, cy: Cycle): World {
    Discovered(Discovered(w, cy.memos, cy.ensures').0, cy.attachments, cy.ensures').0
  }

  function AfterResets(w: World, cy: Cycle): World {
    AllReset(AfterDiscovery(w, cy), cy.failed + cy.skipped, cy.resets).0
  }

  function AfterMemos(cfg: Config, w: World, cy: Cycle): World {
    AllSynced(cfg, AfterResets(w, cy), OfType(MemoType, cy.pendingMemos), Named(cy.datasets), cy.syncs).0
  }

  function AfterAttachments(cfg: Config, w: World, cy: Cycle): World {
    AllSynced(cfg, AfterMemos(cfg, w, cy), OfType(AttachmentType, cy.pendingAttachments), Named(cy.datasets),
              cy.syncs).0
  }

  function AfterCycle(cfg: Config, w: World, cy: Cycle): (World, Counts) {
    var (d1, n1) := Discovered(w, cy.memos, cy.ensures');
    var (d2, n2) := Discovered(d1, cy.attachments, cy.ensures');
    var (w1, n3) := AllReset(d2, cy.failed + cy.skipped, cy.resets);
    var (w2, s1, f1) := AllSynced(cfg, w1, OfType(MemoType, cy.pendingMemos), Named(cy.datasets), cy.syncs);
    var (w3, s2, f2) := AllSynced(cfg, w2, OfType(AttachmentType, cy.pendingAttachments), Named(cy.datasets),
                                  cy.syncs);
    var (w4, s3, f3) := AllSynced(cfg, w3, Due(cfg, cy.retries, cy.now), cy.datasets, cy.again);
    (w4, Counts(n1 + n2 + n3, s1, f1, s2, f2, s3, f3))
  }

  /** A batch run: a cycle when the service is healthy, and nothing otherwise. */
  function BatchRun(cfg: Config, w: World, healthy: bool, cy: Cycle): (World, Counts) {
    if healthy then AfterCycle(cfg, w, cy) else (w, NO_COUNTS)
  }

  /** What an event does: the row is made sure of first, so that it is there when the service is not. */
  function EventHandled(cfg: Config, w: World, event: EventType, key: Key, user: int, healthy: bool,
                        dataset: Option<string>, ensure: Calls, c: Calls): World {
    match event
    case DeleteEvent => if healthy then DeletedContent(w, key, c).0 else w
    case _ =>
      var w1 := Ensured(w, key, user, ensure).0;
      if healthy && dataset.Some? && dataset.value != "" then SyncedContent(cfg, w1, key, dataset.value, c).0 else w1
  }

  /** What an event reports to its caller: a missing client, or an error of the synchronisation or the deletion.  A
      deletion goes on with the client of the system; a data set that cannot be resolved is not an error. */
  function EventVerdict(cfg: Config, w: World, event: EventType, key: Key, user: int, healthy: bool, hasClient: bool,
                        dataset: Option<string>, ensure: Calls, c: Calls): Verdict {
    if !healthy then None
    else if event.DeleteEvent? then DeletedContent(w, key, c).1
    else if !hasClient then Some("resolve user client")
    else if dataset.Some? && dataset.value != "" then
      SyncedContent(cfg, Ensured(w, key, user, ensure).0, key, dataset.value, c).1
    else None
  }

  /** What an event tells the breaker: only a synchronisation that was attempted counts, as a success or a failure. */
  function Reported(h: H.Config, b: H.Breaker, event: EventType, healthy: bool, dataset: Option<string>,
                    verdict: Verdict, now: int): H.Breaker {
    if !healthy || event.DeleteEvent? || dataset.None? || dataset.value == "" then b
    else if verdict.Some? then H.Failed(h, b, now) else H.Succeeded(b)
  }

  /** Only an attempted synchronisation of a created or edited content tells the breaker anything: its error counts one
      failure more and opens the breaker when that reaches the threshold; without an error nothing is counted any more
      and the breaker is closed. */
  lemma EventReports(h: H.Config, b: H.Breaker, event: EventType, healthy: bool, dataset: Option<string>,
                     verdict: Verdict, now: int)
    ensures var end := Reported(h, b, event, healthy, dataset, verdict, now);
            var attempted := healthy && !event.DeleteEvent? && dataset.Some? && dataset.value != "";
            (!attempted ==> end == b) &&
            (attempted && verdict.None? ==> end.failureCount == 0 && !end.circuitOpen && end.isHealthy) &&
            (attempted && verdict.Some? ==>
               end.failureCount == b.failureCount + 1 &&
               (end.circuitOpen <==> b.circuitOpen || b.failureCount + 1 >= h.failureThreshold) &&
               (end.circuitOpen && !b.circuitOpen ==> end.circuitOpenAt == now))
  {}

  class Orchestrator {
    const store: Store
    const stateTracker: StateTracker
    const memoSyncer: MemoSyncer
    const attachmentSyncer: AttachmentSyncer
    const healthChecker: H.HealthChecker
    const batchSize: nat

    predicate Valid() {
      stateTracker.store == store && memoSyncer.store == store && memoSyncer.stateTracker == stateTracker &&
      attachmentSyncer.store == store && attachmentSyncer.stateTracker == stateTracker
    }

    constructor (store: Store, cfg: Config, health: H.Config, batchSize: nat)
      ensures Valid() && this.store == store && stateTracker.cfg == cfg && this.batchSize == batchSize
      ensures fresh(healthChecker) && healthChecker.cfg == health && healthChecker.Now() == H.INITIAL
    {
      var checker := new H.HealthChecker(health);
      var tracker := new StateTracker(store, cfg);
      var memos := new MemoSyncer(store, tracker);
      var attachments := new AttachmentSyncer(store, tracker);
      this.store, stateTracker, memoSyncer, attachmentSyncer := store, tracker, memos, attachments;
      healthChecker, this.batchSize := checker, batchSize;
    }

    /** `hasClient` says whether the user has a client, and `dataset` is what the notebook resolves to; `q` is how
        the question for the service's health turns out. */
    method HandleSyncEvent(event: EventType, key: Key, user: int, q: H.Question, hasClient: bool,
                           dataset: Option<string>, client: Client, ensure: Calls, c: Calls) returns (err: Verdict)
      requires Valid()
      modifies store`rows, store`ids, client, healthChecker
      ensures var (asked, healthy) := H.Asked(healthChecker.cfg, old(healthChecker.Now()), q);
              var w, cfg, used := old(Here(store, client)), stateTracker.cfg, if hasClient then dataset else None;
              Here(store, client) == EventHandled(cfg, w, event, key, user, healthy, used, ensure, c) &&
              err == EventVerdict(cfg, w, event, key, user, healthy, hasClient, dataset, ensure, c) &&
              healthChecker.Now() == Reported(healthChecker.cfg, asked, event, healthy, used, err, c.now)
    {
      hide Ensured, SyncedMemo, SyncedAttachment, DeletedContent, H.Asked, H.Failed, H.Succeeded;
      if !event.DeleteEvent? {
        var created := stateTracker.EnsurePendingState(key, user, ensure, client);
      }
      var healthy := healthChecker.IsHealthy(q);
      if !healthy {
        return None;
      }
      match event {
        case DeleteEvent =>
          match key.ctype {
            case MemoType => err := memoSyncer.DeleteMemoFromRAGFlow(key.uid, client, c);
            case AttachmentType => err := attachmentSyncer.DeleteAttachmentFromRAGFlow(key.uid, client, c);
          }
        case _ =>
          if !hasClient {
            return Some("resolve user client");
          }
          if dataset.None? || dataset.value == "" {
            return None;
          }
          err := SyncOne(key, dataset.value, client, c);
          if err.Some? {
            healthChecker.RecordFailure(c.now);
          } else {
            healthChecker.RecordSuccess();
          }
      }
    }

    method Discover(found: seq<(Key, int)>, plan: Key -> Calls, ghost client: Client) returns (count: nat)
      requires Valid()
      modifies store`rows, store`ids
      ensures (Here(store, client), count) == Discovered(old(Here(store, client)), found, plan)
    {
      hide Ensured;
      count := 0;
      assert found[..0] == [];
      for i := 0 to |found|
        invariant (Here(store, client), count) == Discovered(old(Here(store, client)), found[..i], plan)
      {
        assert found[..i + 1][..i] == found[..i];
        var created := stateTracker.EnsurePendingState(found[i].0, found[i].1, plan(found[i].0), client);
        if created == Ok(true) {
          count := count + 1;
        }
      }
      assert found[..|found|] == found;
    }

    method RetryFailedStates(retries: seq<SyncState>, now: int, datasets: Key -> Option<string>, client: Client,
                             plan: Key -> Calls)
        returns (success: nat, fail: nat)
      requires Valid()
      modifies store`rows, store`ids, client
      ensures (Here(store, client), success, fail)
              == AllSynced(stateTracker.cfg, old(Here(store, client)), Due(stateTracker.cfg, retries, now), datasets,
                           plan)
    {
      hide SyncedContent, FailedPatch, SyncedAttachment, SyncedMemo, Due, Updated;
      ghost var start := old(Here(store, client));
      var states := stateTracker.ListRetryableStates(retries, now);
      success, fail := 0, 0;
      assert states[..0] == [];
      for i := 0 to |states|
        invariant (Here(store, client), success, fail)
                  == AllSynced(stateTracker.cfg, start, states[..i], datasets, plan)
      {
        var state := states[i];
        var dataset, c := datasets(state.key), plan(state.key);
        AllSyncedNext(stateTracker.cfg, start, states, i, datasets, plan);
        if dataset.None? {
          fail := fail + 1;
          continue;
        }
        var err := SyncOne(state.key, dataset.value, client, c);
        if err.Some? {
          var _ := stateTracker.MarkAsFailed(state.id, state.retryCount, err.value, c.now, c.markFailed);
          fail := fail + 1;
          continue;
        }
        success := success + 1;
      }
      assert states[..|states|] == states;
    }

    method SyncOne(key: Key, dataset: string, client: Client, c: Calls) returns (err: Verdict)
      requires Valid()
      modifies store`rows, store`ids, client
      ensures (Here(store, client), err) == SyncedContent(stateTracker.cfg, old(Here(store, client)), key, dataset, c)
    {
      hide SyncedAttachment, SyncedMemo;
      match key.ctype {
        case MemoType => err := memoSyncer.SyncMemo(key.uid, dataset, client, c);
        case AttachmentType => err := attachmentSyncer.SyncAttachment(key.uid, dataset, client, c);
      }
    }

    /** `q` is how the question for the service's health turns out; the batch tells the breaker nothing else. */
    method RunBatchSync(q: H.Question, cy: Cycle, client: Client) returns (counts: Counts)
      requires Valid()
      modifies store`rows, store`ids, client, healthChecker
      ensures var (asked, healthy) := H.Asked(healthChecker.cfg, old(healthChecker.Now()), q);
              (Here(store, client), counts) == BatchRun(stateTracker.cfg, old(Here(store, client)), healthy, cy) &&
              healthChecker.Now() == asked
    {
      hide AllSynced, AllReset, Discovered, OfType, Due, H.Asked;
      var healthy := healthChecker.IsHealthy(q);
      if !healthy {
        return NO_COUNTS;
      }
      var n1 := Discover(cy.memos, cy.ensures', client);
      var n2 := Discover(cy.attachments, cy.ensures', client);
      var n3 := stateTracker.ResetNonPendingStates(cy.failed + cy.skipped, cy.resets, client);
      var s1, f1 := memoSyncer.SyncPendingMemos(cy.pendingMemos, Named(cy.datasets), client, cy.syncs);
      var s2, f2 := attachmentSyncer.SyncPendingAttachments(cy.pendingAttachments, Named(cy.datasets), client,
                                                            cy.syncs);
      var s3, f3 := RetryFailedStates(cy.retries, cy.now, cy.datasets, client, cy.again);
      return Counts(n1 + n2 + n3, s1, f1, s2, f2, s3, f3);
    }
  }
}
