/** What becomes of a deletion that is announced while the service is down. */
module SyncOutage {
  import opened Options
  import opened SyncModel
  import opened SyncRuns
  import SyncServices
  import opened SyncBatch
  import opened SyncSteps

  /** What happens to the orchestrator and the contents: an event, a batch run, or a user's change of a content. */
  datatype Act =
    | Handle(event: EventType, key: Key, user: int, healthy: bool, dataset: Option<string>, ensure: Calls, c: Calls)
    | Batch(healthy: bool, cy: Cycle)
    | Change(key: Key, content: Option<Content>)

  function AfterAct(cfg: Config, w: World, act: Act): World {
    match act
    case Handle(event, key, user, healthy, dataset, ensure, c) =>
      EventHandled(cfg, w, event, key, user, healthy, dataset, ensure, c)
    case Batch(healthy, cy) => BatchRun(cfg, w, healthy, cy).0
    case Change(key, content) => Apply(cfg, w, Edit(key, content))
  }

  function AfterActs(cfg: Config, w: World, acts: seq<Act>): World
    decreases |acts|
  {
    if acts == [] then w else AfterActs(cfg, AfterAct(cfg, w, acts[0]), acts[1..])
  }

  function ActSteps(cfg: Config, act: Act): seq<Step> {
    match act
    case Handle(event, key, user, healthy, dataset, ensure, c) =>
      EventSteps(event, key, user, healthy, dataset, ensure, c)
    case Batch(healthy, cy) => if healthy then CycleSteps(cfg, cy) else []
    case Change(key, content) => [Edit(key, content)]
  }

  function StepsOf(cfg: Config, acts: seq<Act>): seq<Step> {
    if acts == [] then [] else ActSteps(cfg, acts[0]) + StepsOf(cfg, acts[1..])
  }

  lemma ActIsRun(cfg: Config, w: World, act: Act)
    ensures AfterAct(cfg, w, act) == After(cfg, w, ActSteps(cfg, act))
  {
    hide EventHandled, EventSteps, AfterCycle, CycleSteps, Apply;
    match act {
      case Handle(event, key, user, healthy, dataset, ensure, c) =>
        EventIsRun(cfg, w, event, key, user, healthy, dataset, ensure, c);
      case Batch(healthy, cy) => CycleIsRun(cfg, w, cy);
      case Change(key, content) => AfterOne(cfg, w, Edit(key, content));
    }
  }

  /** Whatever happens is a run of atomic steps. */
  lemma {:induction false} ActsAreRun(cfg: Config, w: World, acts: seq<Act>)
    ensures AfterActs(cfg, w, acts) == After(cfg, w, StepsOf(cfg, acts))
    decreases |acts|
  {
    hide AfterAct, ActSteps;
    if acts != [] {
      ActIsRun(cfg, w, acts[0]);
      ActsAreRun(cfg, AfterAct(cfg, w, acts[0]), acts[1..]);
      AfterConcat(cfg, w, ActSteps(cfg, acts[0]), StepsOf(cfg, acts[1..]));
    }
  }

  // ----- the documents of a content that is gone -----

  function DocumentsOf(w: World, k: Key): map<string, Document> {
    map d | d in w.remote.live && w.remote.live[d].key == k :: w.remote.live[d]
  }

  /** The step deletes the document of the content, if there is one. */
  predicate Removes(s: Step, k: Key) { s.Delete? && s.key == k && s.c.readState }

  /** The content is not written again. */
  predicate StaysGone(s: Step, k: Key) { !(s.Edit? && s.key == k) }

  lemma OtherStepKeepsDocuments(cfg: Config, w: World, home: Key -> string, s: Step, k: Key)
    requires Inv(w, home) && Fair(w, home, s) && KeyOf(s) != k
    ensures DocumentsOf(Apply(cfg, w, s), k) == DocumentsOf(w, k)
    ensures k in Apply(cfg, w, s).contents <==> k in w.contents
  {
    hide Inv, Fair, SyncedOk, RowOk, LiveOk, LosesDocument, Apply;
    StepKeeps(cfg, w, home, s);
    ContentsStay(cfg, w, s, k);
    assert DocumentsOf(Apply(cfg, w, s), k).Keys == DocumentsOf(w, k).Keys;
  }

  /** Only a user's change touches the contents. */
  lemma ContentsStay(cfg: Config, w: World, s: Step, k: Key)
    ensures StaysGone(s, k) ==> (k in Apply(cfg, w, s).contents <==> k in w.contents)
  {
    hide SyncedContent, DeletedContent, Updated, Inserted;
    match s {
      case Sync(key, dataset, c) => SyncKeepsContents(cfg, w, key, dataset, c);
      case Listed(listed, resource, c) =>
        if resource.Some? { SyncKeepsContents(cfg, w, listed.key, resource.value, c); }
      case Delete(key, c) => DeletedKeepsContents(w, key, c);
      case _ =>
    }
  }

  lemma SyncKeepsContents(cfg: Config, w: World, key: Key, dataset: string, c: Calls)
    ensures SyncedContent(cfg, w, key, dataset, c).0.contents == w.contents
  {
    hide SyncedContent, Recorded, Updated;
    SyncedContentCases(cfg, w, key, dataset, c);
  }

  lemma DeletedKeepsContents(w: World, key: Key, c: Calls)
    ensures DeletedContent(w, key, c).0.contents == w.contents
  {}

  /** A step of the content itself: without the content nothing is uploaded or replaced. */
  lemma OwnStepDocuments(cfg: Config, w: World, home: Key -> string, s: Step, k: Key)
    requires Inv(w, home) && Fair(w, home, s) && KeyOf(s) == k && k !in w.contents && StaysGone(s, k)
    ensures Apply(cfg, w, s).remote.live
            == if Removes(s, k) then w.remote.live - DocumentsOf(w, k).Keys else w.remote.live
  {
    hide Inv, SyncedContent, DeletedContent, Updated, Inserted;
    match s {
      case Sync(key, dataset, c) => NothingToSync(cfg, w, key, dataset, c);
      case Listed(listed, resource, c) =>
        if resource.Some? { NothingToSync(cfg, w, listed.key, resource.value, c); }
      case Delete(key, c) => DeletedDocuments(w, home, key, c);
      case _ =>
    }
  }

  lemma NothingToSync(cfg: Config, w: World, key: Key, dataset: string, c: Calls)
    requires key !in w.contents
    ensures SyncedContent(cfg, w, key, dataset, c).0 == w
  {
    hide SyncedContent;
    SyncedContentCases(cfg, w, key, dataset, c);
  }

  lemma DeletedDocuments(w: World, home: Key -> string, k: Key, c: Calls)
    requires Inv(w, home) && (RecordsLive(w, k) ==> c.delete)
    ensures DeletedContent(w, k, c).0.remote.live
            == if c.readState then w.remote.live - DocumentsOf(w, k).Keys else w.remote.live
  {
    hide Inv;
    InvAt(w, home, k);
    InvIssued(w, home);
  }

  lemma StepDocuments(cfg: Config, w: World, home: Key -> string, s: Step, k: Key)
    requires Inv(w, home) && Fair(w, home, s) && k !in w.contents && StaysGone(s, k)
    ensures k !in Apply(cfg, w, s).contents
    ensures DocumentsOf(Apply(cfg, w, s), k) == if Removes(s, k) then map[] else DocumentsOf(w, k)
  {
    hide Inv, Fair, Apply;
    ContentsStay(cfg, w, s, k);
    if KeyOf(s) == k {
      OwnStepDocuments(cfg, w, home, s, k);
      assert Removes(s, k) ==> DocumentsOf(Apply(cfg, w, s), k) == map[];
    } else {
      OtherStepKeepsDocuments(cfg, w, home, s, k);
    }
  }

  /** Once a content is gone, a fair run of any length leaves its documents as they are, unless one of its steps is a
      deletion of that content that can read the row. */
  lemma {:induction false} RunDocuments(cfg: Config, w: World, home: Key -> string, steps: seq<Step>, k: Key)
    requires Inv(w, home) && IsFairRun(cfg, w, home, steps) && k !in w.contents && forall s <- steps :: StaysGone(s, k)
    ensures DocumentsOf(After(cfg, w, steps), k)
            == if exists s <- steps :: Removes(s, k) then map[] else DocumentsOf(w, k)
    decreases |steps|
  {
    hide Inv, Fair, Apply, Removes, StaysGone, DocumentsOf, SyncedOk;
    if steps != [] {
      var s, rest := steps[0], steps[1..];
      assert steps == [s] + rest;
      StepDocuments(cfg, w, home, s, k);
      StepKeepsAll(cfg, w, home, s);
      RunDocuments(cfg, Apply(cfg, w, s), home, rest, k);
      if exists x <- rest :: Removes(x, k) {
        var x :| x in rest && Removes(x, k);
        assert x in steps;
      }
      assert s in steps;
    }
  }

  /** A content has a live document exactly when its row records one. */
  lemma HasDocumentIff(w: World, home: Key -> string, k: Key)
    requires Inv(w, home)
    ensures DocumentsOf(w, k) != map[] <==> RecordsLive(w, k)
  {
    hide Inv;
    InvAt(w, home, k);
    InvIssued(w, home);
    if DocumentsOf(w, k) != map[] {
      var d :| d in DocumentsOf(w, k);
      assert w.db.rows[k].document == d;
    }
    if RecordsLive(w, k) { assert w.db.rows[k].document in DocumentsOf(w, k); }
  }

  // ----- acts of the orchestrator -----

  /** A deletion of the content is announced again while the service is up, and its row can be read. */
  ghost predicate DeletedAgain(acts: seq<Act>, k: Key) {
    exists a <- acts :: a.Handle? && a.event.DeleteEvent? && a.key == k && a.healthy && a.c.readState
  }

  ghost predicate NotRewritten(acts: seq<Act>, k: Key) { forall a <- acts :: !(a.Change? && a.key == k) }

  lemma {:induction false} NoDeletionInLists(found: seq<(Key, int)>, listed: seq<SyncState>,
                                             datasets: Key -> Option<string>, plan: Key -> Calls)
    ensures forall s <- EnsureSteps(found, plan) :: s.Ensure?
    ensures forall s <- ResetSteps(listed, plan) :: s.Reset?
    ensures forall s <- ListedSteps(listed, datasets, plan) :: s.Listed?
    decreases |found| + |listed|
  {
    if found != [] { NoDeletionInLists(found[..|found| - 1], listed, datasets, plan); }
    if listed != [] { NoDeletionInLists(found, listed[..|listed| - 1], datasets, plan); }
  }

  lemma CycleDeletesNothing(cfg: Config, cy: Cycle)
    ensures forall s <- CycleSteps(cfg, cy) :: !s.Delete? && !s.Edit?
  {
    hide EnsureSteps, ResetSteps, ListedSteps;
    NoDeletionInLists(cy.memos, cy.failed + cy.skipped, cy.datasets, cy.ensures');
    NoDeletionInLists(cy.attachments, cy.failed + cy.skipped, cy.datasets, cy.ensures');
    NoDeletionInLists([], cy.failed + cy.skipped, cy.datasets, cy.resets);
    NoDeletionInLists([], SyncServices.OfType(MemoType, cy.pendingMemos), Named(cy.datasets), cy.syncs);
    NoDeletionInLists([], SyncServices.OfType(AttachmentType, cy.pendingAttachments), Named(cy.datasets), cy.syncs);
    NoDeletionInLists([], SyncServices.Due(cfg, cy.retries, cy.now), cy.datasets, cy.again);
  }

  lemma ActRemoves(cfg: Config, act: Act, k: Key)
    ensures (exists s <- ActSteps(cfg, act) :: Removes(s, k)) <==> DeletedAgain([act], k)
    ensures (forall s <- ActSteps(cfg, act) :: StaysGone(s, k)) <==> NotRewritten([act], k)
  {
    hide CycleSteps;
    assert act in [act];
    match act {
      case Handle(event, key, user, healthy, dataset, ensure, c) =>
        if event.DeleteEvent? && healthy { assert Delete(key, c) in ActSteps(cfg, act); }
      case Batch(healthy, cy) => CycleDeletesNothing(cfg, cy);
      case Change(key, content) => assert Edit(key, content) in ActSteps(cfg, act);
    }
  }

  lemma {:induction false} ActsRemove(cfg: Config, acts: seq<Act>, k: Key)
    ensures (exists s <- StepsOf(cfg, acts) :: Removes(s, k)) <==> DeletedAgain(acts, k)
    ensures NotRewritten(acts, k) ==> forall s <- StepsOf(cfg, acts) :: StaysGone(s, k)
    decreases |acts|
  {
    hide Removes, StaysGone, ActSteps;
    if acts != [] {
      var a, rest := acts[0], acts[1..];
      assert acts == [a] + rest;
      ActRemoves(cfg, a, k);
      ActsRemove(cfg, rest, k);
      var x, y := ActSteps(cfg, a), StepsOf(cfg, rest);
      assert forall s :: s in x + y <==> s in x || s in y;
      assert DeletedAgain(acts, k) <==> DeletedAgain([a], k) || DeletedAgain(rest, k);
    }
  }

  /** A deletion that is announced while the service is down is lost for good.  Whatever events, batch runs and changes
      of other contents follow, the documents of the content are afterwards those it had when the deletion was
      announced, unless its deletion is announced again; so one is left exactly when its row recorded a live one. */
  lemma OutageLosesDeletions(cfg: Config, w: World, home: Key -> string, key: Key, user: int, dataset: Option<string>,
                             ensure: Calls, c: Calls, acts: seq<Act>)
    requires Inv(w, home) && key !in w.contents && NotRewritten(acts, key)
    requires IsFairRun(cfg, EventHandled(cfg, w, DeleteEvent, key, user, false, dataset, ensure, c), home,
                       StepsOf(cfg, acts))
    ensures var end := AfterActs(cfg, EventHandled(cfg, w, DeleteEvent, key, user, false, dataset, ensure, c), acts);
            DocumentsOf(end, key) == (if DeletedAgain(acts, key) then map[] else DocumentsOf(w, key)) &&
            (DocumentsOf(end, key) != map[] <==> RecordsLive(w, key) && !DeletedAgain(acts, key))
  {
    hide Inv, DocumentsOf, DeletedAgain, NotRewritten, Removes, StaysGone, StepsOf, AfterActs, IsFairRun, After;
    assert EventHandled(cfg, w, DeleteEvent, key, user, false, dataset, ensure, c) == w;
    ActsAreRun(cfg, w, acts);
    ActsRemove(cfg, acts, key);
    RunDocuments(cfg, w, home, StepsOf(cfg, acts), key);
    HasDocumentIff(w, home, key);
  }
}
