/** Events and batch cycles are runs of atomic steps, so that what holds over runs holds of the orchestrator. */
module SyncSteps {
  import opened Options
  import opened SyncModel
  import opened SyncServices
  import opened SyncRuns
  import opened SyncBatch

  lemma {:induction false} AfterConcat(cfg: Config, w: World, a: seq<Step>, b: seq<Step>)
    ensures After(cfg, w, a + b) == After(cfg, After(cfg, w, a), b)
    decreases |a|
  {
    if a == [] {
      assert a + b == b;
    } else {
      assert (a + b)[0] == a[0] && (a + b)[1..] == a[1..] + b;
      AfterConcat(cfg, Apply(cfg, w, a[0]), a[1..], b);
    }
  }

  lemma AfterOne(cfg: Config, w: World, s: Step)
    ensures After(cfg, w, [s]) == Apply(cfg, w, s)
  {
    assert [s][1..] == [];
  }

  lemma AfterLast(cfg: Config, w: World, steps: seq<Step>, s: Step)
    ensures After(cfg, w, steps + [s]) == Apply(cfg, After(cfg, w, steps), s)
  {
    AfterConcat(cfg, w, steps, [s]);
    AfterOne(cfg, After(cfg, w, steps), s);
  }

  function EventSteps(event: EventType, key: Key, user: int, healthy: bool, dataset: Option<string>, ensure: Calls,
                      c: Calls): seq<Step> {
    match event
    case DeleteEvent => if healthy then [Delete(key, c)] else []
    case _ =>
      [Ensure(key, user, ensure)] +
      if healthy && dataset.Some? && dataset.value != "" then [Sync(key, dataset.value, c)] else []
  }

  /** Handling an event is at most two steps on its content. */
  lemma EventIsRun(cfg: Config, w: World, event: EventType, key: Key, user: int, healthy: bool, dataset: Option<string>,
                   ensure: Calls, c: Calls)
    ensures EventHandled(cfg, w, event, key, user, healthy, dataset, ensure, c)
            == After(cfg, w, EventSteps(event, key, user, healthy, dataset, ensure, c))
  {
    hide Ensured, SyncedContent, DeletedContent;
    if event.DeleteEvent? {
      if healthy { AfterOne(cfg, w, Delete(key, c)); }
    } else {
      AfterOne(cfg, w, Ensure(key, user, ensure));
      if healthy && dataset.Some? && dataset.value != "" {
        AfterLast(cfg, w, [Ensure(key, user, ensure)], Sync(key, dataset.value, c));
      } else {
        assert [Ensure(key, user, ensure)] + [] == [Ensure(key, user, ensure)];
      }
    }
  }

  function EnsureSteps(found: seq<(Key, int)>, plan: Key -> Calls): seq<Step> {
    if found == [] then []
    else var n := |found| - 1; EnsureSteps(found[..n], plan) + [Ensure(found[n].0, found[n].1, plan(found[n].0))]
  }

  function ResetSteps(listed: seq<SyncState>, plan: Key -> Calls): seq<Step> {
    if listed == [] then []
    else var n := |listed| - 1; ResetSteps(listed[..n], plan) + [Reset(listed[n], plan(listed[n].key))]
  }

  function ListedSteps(listed: seq<SyncState>, datasets: Key -> Option<string>, plan: Key -> Calls): seq<Step> {
    if listed == [] then []
    else
      var n := |listed| - 1;
      ListedSteps(listed[..n], datasets, plan) + [Listed(listed[n], datasets(listed[n].key), plan(listed[n].key))]
  }

  lemma {:induction false} DiscoveryIsRun(cfg: Config, w: World, found: seq<(Key, int)>, plan: Key -> Calls)
    ensures Discovered(w, found, plan).0 == After(cfg, w, EnsureSteps(found, plan))
  {
    hide Ensured, After;
    if found == [] {
      AfterNothing(cfg, w);
    } else {
      var n := |found| - 1;
      DiscoveryIsRun(cfg, w, found[..n], plan);
      AfterLast(cfg, w, EnsureSteps(found[..n], plan), Ensure(found[n].0, found[n].1, plan(found[n].0)));
    }
  }

  lemma AfterNothing(cfg: Config, w: World)
    ensures After(cfg, w, []) == w
  {}

  lemma {:induction false} ResetsAreRun(cfg: Config, w: World, listed: seq<SyncState>, plan: Key -> Calls)
    ensures AllReset(w, listed, plan).0 == After(cfg, w, ResetSteps(listed, plan))
  {
    hide ResetRow, After;
    if listed == [] {
      AfterNothing(cfg, w);
    } else {
      var n := |listed| - 1;
      ResetsAreRun(cfg, w, listed[..n], plan);
      AfterLast(cfg, w, ResetSteps(listed[..n], plan), Reset(listed[n], plan(listed[n].key)));
    }
  }

  lemma {:induction false} ListIsRun(cfg: Config, w: World, listed: seq<SyncState>, datasets: Key -> Option<string>,
                                     plan: Key -> Calls)
    ensures AllSynced(cfg, w, listed, datasets, plan).0 == After(cfg, w, ListedSteps(listed, datasets, plan))
  {
    hide SyncedListed, After;
    if listed == [] {
      AfterNothing(cfg, w);
    } else {
      var n := |listed| - 1;
      ListIsRun(cfg, w, listed[..n], datasets, plan);
      AfterLast(cfg, w, ListedSteps(listed[..n], datasets, plan),
                Listed(listed[n], datasets(listed[n].key), plan(listed[n].key)));
    }
  }

  function CycleSteps(cfg: Config, cy: Cycle): seq<Step> {
    EnsureSteps(cy.memos, cy.ensures') + EnsureSteps(cy.attachments, cy.ensures') +
    ResetSteps(cy.failed + cy.skipped, cy.resets) +
    ListedSteps(OfType(MemoType, cy.pendingMemos), Named(cy.datasets), cy.syncs) +
    ListedSteps(OfType(AttachmentType, cy.pendingAttachments), Named(cy.datasets), cy.syncs) +
    ListedSteps(Due(cfg, cy.retries, cy.now), cy.datasets, cy.again)
  }

  /** A batch cycle is the run of its steps. */
  lemma CycleIsRun(cfg: Config, w: World, cy: Cycle)
    ensures AfterCycle(cfg, w, cy).0 == After(cfg, w, CycleSteps(cfg, cy))
  {
    hide Discovered, AllReset, AllSynced, OfType, Due, After, EnsureSteps, ResetSteps, ListedSteps;
    var memos, atts := OfType(MemoType, cy.pendingMemos), OfType(AttachmentType, cy.pendingAttachments);
    var a, b := EnsureSteps(cy.memos, cy.ensures'), EnsureSteps(cy.attachments, cy.ensures');
    var c, d := ResetSteps(cy.failed + cy.skipped, cy.resets), ListedSteps(memos, Named(cy.datasets), cy.syncs);
    var e := ListedSteps(atts, Named(cy.datasets), cy.syncs);
    var f := ListedSteps(Due(cfg, cy.retries, cy.now), cy.datasets, cy.again);
    DiscoveryIsRun(cfg, w, cy.memos, cy.ensures');
    AfterConcat(cfg, w, a, b);
    DiscoveryIsRun(cfg, After(cfg, w, a), cy.attachments, cy.ensures');
    AfterConcat(cfg, w, a + b, c);
    ResetsAreRun(cfg, After(cfg, w, a + b), cy.failed + cy.skipped, cy.resets);
    AfterConcat(cfg, w, a + b + c, d);
    ListIsRun(cfg, After(cfg, w, a + b + c), memos, Named(cy.datasets), cy.syncs);
    AfterConcat(cfg, w, a + b + c + d, e);
    ListIsRun(cfg, After(cfg, w, a + b + c + d), atts, Named(cy.datasets), cy.syncs);
    AfterConcat(cfg, w, a + b + c + d + e, f);
    ListIsRun(cfg, After(cfg, w, a + b + c + d + e), Due(cfg, cy.retries, cy.now), cy.datasets, cy.again);
  }
}
