/** The cron runner: its entries, its event loop, and what holds over every run of it. */
module CronLoop {
  import opened Options
  import opened CronSpec

  /** A crontab schedule or a constant delay in nanoseconds. */
  datatype Schedule = Spec(spec: SpecSchedule) | Delay(delay: int) {
    /** `Every` makes no other delays. */
    predicate Valid() { Delay? ==> delay >= NANOS && delay % NANOS == 0 }

    /** The next activation after `now`; `None` is the zero time. */
    function NextAfter(now: Time): Option<Time> {
      match this
      case Spec(s) => NextTime(s, now)
      case Delay(d) => Some(Time(now.ns + (d - now.ns % NANOS), now.offset))
    }
  }

  /** `Every`: at least a second, in whole seconds. */
  function Every(duration: int): (s: Schedule)
    ensures s.Valid() && s.Delay?
    ensures s.delay <= (if duration < NANOS then NANOS else duration) < s.delay + NANOS
  {
    var d := if duration < NANOS then NANOS else duration;
    Delay(d - d % NANOS)
  }

  /** Both kinds of schedule move strictly forward, onto whole seconds. */
  lemma NextAfterIsLater(s: Schedule, now: Time)
    requires s.Valid()
    ensures s.NextAfter(now).Some? ==> s.NextAfter(now).value.ns > now.ns && s.NextAfter(now).value.ns % NANOS == 0
  {
    match s {
      case Spec(spec) => NextIsLeast(spec, now, NextTime(spec, now));
      case Delay(d) =>
    }
  }

  /** A delay is always followed by another activation: the last whole second not later than the delay from now. */
  lemma DelayIsNext(d: int, now: Time)
    requires d >= 1_000_000_000 && d % 1_000_000_000 == 0
    ensures var next := Delay(d).NextAfter(now);
            next.Some? && next.value.offset == now.offset && next.value.ns % 1_000_000_000 == 0 &&
            now.ns + d - 1_000_000_000 < next.value.ns <= now.ns + d
  {
    assert (now.ns - now.ns % NANOS) % NANOS == 0;
  }

  class Entry {
    const id: nat
    const schedule: Schedule
    var next: Option<Time>
    var prev: Option<Time>

    constructor (id: nat, schedule: Schedule)
      ensures this.id == id && this.schedule == schedule && next.None? && prev.None?
    {
      this.id, this.schedule := id, schedule;
      next, prev := None, None;
    }

    ghost function Value(): EntryState
      reads this
    {
      EntryState(id, schedule, next, prev)
    }

    /** A start: the next time becomes the previous one. */
    method Advance(now: Time)
      requires Value().IsDue(now)
      modifies this
      ensures Value() == old(Value()).Woken(now)
    {
      hide Schedule.NextAfter;
      prev := next;
      next := schedule.NextAfter(now);
    }
  }

  // ----- the runner's state as a value -----

  datatype EntryState = EntryState(id: nat, schedule: Schedule, next: Option<Time>, prev: Option<Time>) {
    /** Its next time is set and not after `now`. */
    predicate IsDue(now: Time) { next.Some? && next.value.ns <= now.ns }

    /** A start moves the next time into `prev`. */
    function Woken(now: Time): EntryState {
      if IsDue(now) then this.(prev := next, next := schedule.NextAfter(now)) else this
    }
  }

  /** One job start: the entry, the time it was due and the time it was started. */
  datatype Launch = Launch(id: nat, due: Time, at: Time)

  /** `byTime.Less`: earlier next times first, unset ones last. */
  predicate Less(a: Option<Time>, b: Option<Time>) {
    a.Some? && (b.None? || a.value.ns < b.value.ns)
  }

  predicate Sorted(es: seq<EntryState>) {
    forall i, j :: 0 <= i < j < |es| ==> !Less(es[j].next, es[i].next)
  }

  predicate DistinctIds(es: seq<EntryState>) {
    forall i, j :: 0 <= i < j < |es| ==> es[i].id != es[j].id
  }

  function InitAll(es: seq<EntryState>, now: Time): (r: seq<EntryState>)
    ensures |r| == |es| && forall k | 0 <= k < |es| :: r[k] == es[k].(next := es[k].schedule.NextAfter(now))
  {
    seq(|es|, k requires 0 <= k < |es| => es[k].(next := es[k].schedule.NextAfter(now)))
  }

  function WakeAll(es: seq<EntryState>, now: Time): (r: seq<EntryState>)
    ensures |r| == |es| && forall k | 0 <= k < |es| :: r[k] == es[k].Woken(now)
  {
    seq(|es|, k requires 0 <= k < |es| => es[k].Woken(now))
  }

  /** The starts of one wake, in list order. */
  function Launches(es: seq<EntryState>, now: Time): seq<Launch> {
    if es == [] then []
    else (if es[0].IsDue(now) then [Launch(es[0].id, es[0].next.value, now)] else []) + Launches(es[1..], now)
  }

  function Without(es: seq<EntryState>, id: nat): (r: seq<EntryState>)
    ensures forall e <- r :: e in es && e.id != id
    ensures forall e <- es :: e.id != id ==> e in r
  {
    if es == [] then []
    else if es[0].id != id then [es[0]] + Without(es[1..], id) else Without(es[1..], id)
  }

  /** `order` lists the positions below `n`, each once. */
  predicate Permutation(order: seq<nat>, n: nat) {
    |order| == n && (forall i | 0 <= i < n :: order[i] < n) &&
    (forall i, j :: 0 <= i < j < n ==> order[i] != order[j]) &&
    (forall k: nat :: k < n ==> k in order)
  }

  function Permuted<T>(s: seq<T>, order: seq<nat>): seq<T>
    requires Permutation(order, |s|)
  {
    seq(|s|, i requires 0 <= i < |s| => s[order[i]])
  }

  ghost function Values(es: seq<Entry>): (r: seq<EntryState>)
    reads es
    ensures |r| == |es| && forall i | 0 <= i < |es| :: r[i] == es[i].Value()
  {
    seq(|es|, i requires 0 <= i < |es| reads es => es[i].Value())
  }

  datatype State = State(entries: seq<EntryState>, nextID: nat, running: bool, started: seq<Launch>)

  class Cron {
    var entries: seq<Entry>
    var nextID: nat
    var running: bool
    var started: seq<Launch>  // the jobs handed to startJob, in order

    ghost predicate Valid()
      reads this, entries
    {
      (forall i, j :: 0 <= i < j < |entries| ==> entries[i].id != entries[j].id) &&
      (forall e <- entries :: 1 <= e.id <= nextID && e.schedule.Valid())
    }

    ghost function View(): seq<EntryState>
      reads this, entries
    {
      Values(entries)
    }

    ghost function Now(): State
      reads this, entries
    {
      State(View(), nextID, running, started)
    }

    constructor ()
      ensures Valid() && Now() == State([], 0, false, [])
    {
      entries, nextID, running, started := [], 0, false, [];
    }

    /** Adds an entry; while the runner is running, its next time is computed at once. */
    method ScheduleJob(schedule: Schedule, now: Time) returns (id: nat)
      requires Valid() && schedule.Valid()
      modifies this`entries, this`nextID
      ensures Valid() && id == nextID
      ensures Now() == Apply(old(Now()), Added(schedule, now))
    {
      hide Schedule.NextAfter;
      nextID := nextID + 1;
      var entry := new Entry(nextID, schedule);
      if running {
        entry.next := schedule.NextAfter(now);
      }
      entries := entries + [entry];
      id := nextID;
    }

    /** Drops the entry with the given id, if there is one. */
    method Remove(id: nat)
      requires Valid()
      modifies this`entries
      ensures Valid()
      ensures Now() == Apply(old(Now()), Removed(id))
    {
      hide Without;
      ghost var view := View();
      WithoutEmpty(id);
      var kept: seq<Entry> := [];
      for k := 0 to |entries|
        invariant entries == old(entries)
        invariant Values(kept) == Without(view[..k], id)
      {
        WithoutLast(view[..k], view[k], id);
        assert view[..k + 1] == view[..k] + [view[k]];
        if entries[k].id != id {
          kept := kept + [entries[k]];
        }
      }
      assert view[..|entries|] == view;
      WithoutDistinct(view, id);
      entries := kept;
      assert View() == Without(view, id);
      ValidFromView();
    }

    /** Validity is a property of the entries' values. */
    lemma ValidFromView()
      requires DistinctIds(View()) && forall e <- View() :: 1 <= e.id <= nextID && e.schedule.Valid()
      ensures Valid()
    {
      forall i | 0 <= i < |entries|
        ensures entries[i].id == View()[i].id && View()[i] in View() && entries[i].schedule == View()[i].schedule {}
    }

    lemma DistinctEntries()
      requires Valid()
      ensures forall i, j :: 0 <= i < j < |entries| ==> entries[i] != entries[j]
    {}

    /** Starts the runner: every entry gets its first next time. */
    method Start(now: Time)
      requires Valid()
      modifies this`running, entries
      ensures Valid()
      ensures Now() == Apply(old(Now()), Started(now))
    {
      hide Schedule.NextAfter;
      if running {
        return;
      }
      running := true;
      for k := 0 to |entries|
        invariant running && Valid()
        invariant forall i | 0 <= i < |entries| :: entries[i].prev == old(entries[i].prev)
        invariant forall i | k <= i < |entries| :: entries[i].next == old(entries[i].next)
        invariant forall i | 0 <= i < k :: entries[i].next == entries[i].schedule.NextAfter(now)
      {
        entries[k].next := entries[k].schedule.NextAfter(now);
      }
    }

    method Stop()
      requires Valid()
      modifies this`running
      ensures Valid() && Now() == Apply(old(Now()), Stopped)
    {
      running := false;
    }

    /** The head of the loop: puts the entries in the order the library sort chose, and arms the timer for
        the first of them; `None` stands for the long idle sleep. */
    method Arm(order: seq<nat>) returns (at: Option<Time>)
      requires Valid() && Permutation(order, |entries|) && Sorted(Permuted(View(), order))
      modifies this`entries
      ensures Valid() && Now() == Apply(old(Now()), Armed(order))
      ensures at.None? ==> forall e <- View() :: e.next.None?
      ensures at.Some? ==> (exists e <- View() :: e.next == at) &&
                           forall e <- View() :: e.next.Some? ==> at.value.ns <= e.next.value.ns
    {
      hide Sorted, Permutation, Schedule.NextAfter, Launches, WakeAll, InitAll, Without;
      ghost var view := View();
      var sorted := Permuted(entries, order);
      PermutedValues(entries, order);
      PermutedKeepsValid(entries, order, nextID);
      entries := sorted;
      at := if entries == [] then None else entries[0].next;
      FirstIsLeast(View());
    }

    /** Starts the jobs up to the first entry that is not due, and says how many those were. */
    method StartDue(now: Time) returns (k: nat)
      requires Valid()
      modifies this`started, entries
      ensures Valid() && k <= |entries| && (k < |entries| ==> !old(View())[k].IsDue(now))
      ensures forall i | 0 <= i < |entries| ::
                entries[i].Value() == if i < k then old(View())[i].Woken(now) else old(View())[i]
      ensures started == old(started) + Launches(old(View())[..k], now)
    {
      hide Schedule.NextAfter, Launches, EntryState.Woken;
      ghost var view := View();
      LaunchesEmpty(now);
      DistinctEntries();
      hide Valid;
      k := 0;
      while k < |entries|
        invariant 0 <= k <= |entries| && Valid()
        invariant forall i | 0 <= i < |entries| ::
                    entries[i].Value() == if i < k then view[i].Woken(now) else view[i]
        invariant started == old(started) + Launches(view[..k], now)
      {
        var e := entries[k];
        assert e.Value() == view[k];
        if e.next.None? || e.next.value.ns > now.ns {
          return;
        }
        assert view[..k + 1] == view[..k] + [view[k]];
        LaunchesLast(view[..k], view[k], now);
        started := started + [Launch(e.id, e.next.value, now)];
        e.Advance(now);
        k := k + 1;
      }
    }

    /** The timer fired. */
    method Wake(now: Time)
      requires Valid() && Sorted(View())
      modifies this`started, entries
      ensures Valid() && Now() == Apply(old(Now()), Woke(now))
    {
      hide Schedule.NextAfter, Launches, EntryState.Woken, Sorted;
      ghost var view := View();
      var k := StartDue(now);
      WakeEnds(view, View(), k, now);
    }
  }

  /** In a sorted list the entries from the first that is not due on stay as they are. */
  lemma WakeEnds(view: seq<EntryState>, woken: seq<EntryState>, k: nat, now: Time)
    requires Sorted(view) && k <= |view| == |woken| && (k < |view| ==> !view[k].IsDue(now))
    requires forall i | 0 <= i < |view| :: woken[i] == if i < k then view[i].Woken(now) else view[i]
    ensures woken == WakeAll(view, now) && Launches(view[..k], now) == Launches(view, now)
  {
    hide EntryState.Woken, Launches;
    LaunchesOfTail(view, k, now);
    forall i | k <= i < |view| ensures view[i].Woken(now) == view[i] { NotDueStays(view[i], now); }
  }

  lemma NotDueStays(e: EntryState, now: Time)
    ensures !e.IsDue(now) ==> e.Woken(now) == e
  {}

  lemma WithoutEmpty(id: nat)
    ensures Without([], id) == []
  {}

  lemma {:induction false} WithoutDistinct(es: seq<EntryState>, id: nat)
    requires DistinctIds(es)
    ensures DistinctIds(Without(es, id))
  {
    if es != [] {
      WithoutDistinct(es[1..], id);
    }
  }

  lemma LaunchesEmpty(now: Time)
    ensures Launches([], now) == []
  {}

  lemma PermutedValues(es: seq<Entry>, order: seq<nat>)
    requires Permutation(order, |es|)
    ensures Values(Permuted(es, order)) == Permuted(Values(es), order)
  {}

  lemma PermutedKeepsValid(es: seq<Entry>, order: seq<nat>, n: nat)
    requires Permutation(order, |es|)
    requires forall i, j :: 0 <= i < j < |es| ==> es[i].id != es[j].id
    requires forall e <- es :: 1 <= e.id <= n && e.schedule.Valid()
    ensures var r := Permuted(es, order);
            (forall i, j :: 0 <= i < j < |r| ==> r[i].id != r[j].id) &&
            (forall e <- r :: 1 <= e.id <= n && e.schedule.Valid())
  {}

  /** The first entry of a sorted list has the least next time of all that are set. */
  lemma FirstIsLeast(es: seq<EntryState>)
    requires Sorted(es)
    ensures es == [] || es[0].next.None? ==> forall e <- es :: e.next.None?
    ensures es != [] && es[0].next.Some? ==>
              es[0] in es && forall e <- es :: e.next.Some? ==> es[0].next.value.ns <= e.next.value.ns
  {}

  lemma {:induction false} WithoutLast(es: seq<EntryState>, e: EntryState, id: nat)
    ensures Without(es + [e], id) == Without(es, id) + (if e.id != id then [e] else [])
  {
    if es != [] {
      assert (es + [e])[1..] == es[1..] + [e];
      WithoutLast(es[1..], e, id);
    }
  }

  lemma {:induction false} LaunchesLast(es: seq<EntryState>, e: EntryState, now: Time)
    ensures Launches(es + [e], now) == Launches(es, now) + (if e.IsDue(now) then [Launch(e.id, e.next.value, now)]
                                                            else [])
  {
    if es != [] {
      assert (es + [e])[1..] == es[1..] + [e];
      LaunchesLast(es[1..], e, now);
    }
  }

  /** Entries from `k` on that are not due start nothing. */
  lemma {:induction false} LaunchesOfTail(es: seq<EntryState>, k: nat, now: Time)
    requires k <= |es| && forall i | k <= i < |es| :: !es[i].IsDue(now)
    ensures Launches(es, now) == Launches(es[..k], now)
    decreases |es|
  {
    if k < |es| {
      var n := |es| - 1;
      assert es == es[..n] + [es[n]];
      LaunchesLast(es[..n], es[n], now);
      LaunchesOfTail(es[..n], k, now);
      assert es[..n][..k] == es[..k];
    } else {
      assert es[..k] == es;
    }
  }

  datatype Event =
    | Added(schedule: Schedule, now: Time)
    | Removed(id: nat)
    | Started(now: Time)
    | Armed(order: seq<nat>)
    | Woke(now: Time)
    | Stopped

  /** What one event of the runner does; an event that cannot happen in the state does nothing. */
  function Apply(st: State, ev: Event): State {
    match ev
    case Added(schedule, now) =>
      var e := EntryState(st.nextID + 1, schedule, if st.running then schedule.NextAfter(now) else None, None);
      st.(nextID := st.nextID + 1, entries := st.entries + [e])
    case Removed(id) => st.(entries := Without(st.entries, id))
    case Started(now) => if st.running then st else st.(running := true, entries := InitAll(st.entries, now))
    case Armed(order) =>
      if Permutation(order, |st.entries|) then st.(entries := Permuted(st.entries, order)) else st
    case Woke(now) => st.(entries := WakeAll(st.entries, now), started := st.started + Launches(st.entries, now))
    case Stopped => st.(running := false)
  }

  // ----- runs -----

  ghost predicate DistinctLaunches(ls: seq<Launch>) {
    forall i, j :: 0 <= i < j < |ls| ==> ls[i].id != ls[j].id
  }

  /** A wake starts exactly the due entries, each once, and moves their next time past `now`. */
  lemma {:induction false} WakeStartsTheDueOnce(es: seq<EntryState>, now: Time)
    requires DistinctIds(es)
    ensures DistinctLaunches(Launches(es, now))
    ensures forall l :: l in Launches(es, now) <==>
              exists k :: 0 <= k < |es| && es[k].IsDue(now) && l == Launch(es[k].id, es[k].next.value, now)
  {
    if es != [] {
      var rest := Launches(es[1..], now);
      WakeStartsTheDueOnce(es[1..], now);
      forall l ensures l in Launches(es, now) <==>
                       exists k :: 0 <= k < |es| && es[k].IsDue(now) && l == Launch(es[k].id, es[k].next.value, now) {
        if l in rest {
          var k :| 0 <= k < |es| - 1 && es[1..][k].IsDue(now) && l == Launch(es[1..][k].id, es[1..][k].next.value, now);
          assert es[k + 1].IsDue(now);
        }
        if k :| 0 <= k < |es| && es[k].IsDue(now) && l == Launch(es[k].id, es[k].next.value, now) {
          if k > 0 { assert es[1..][k - 1].IsDue(now); }
        }
      }
      forall l | l in rest ensures l.id != es[0].id {
        var k :| 0 <= k < |es| - 1 && es[1..][k].IsDue(now) && l == Launch(es[1..][k].id, es[1..][k].next.value, now);
        assert es[k + 1].id != es[0].id;
      }
      forall i | 0 <= i < |rest| ensures rest[i] in rest {}
    }
  }

  /** An event that can happen next in a run whose clock reads `clock`. */
  predicate CanHappen(st: State, ev: Event, clock: int) {
    match ev
    case Added(schedule, now) => schedule.Valid() && now.ns >= clock
    case Started(now) => now.ns >= clock
    case Armed(order) => st.running && Permutation(order, |st.entries|) && Sorted(Permuted(st.entries, order))
    case Woke(now) => st.running && Sorted(st.entries) && now.ns >= clock
    case _ => true
  }

  function Clock(ev: Event, clock: int): int {
    match ev
    case Added(_, now) => now.ns
    case Started(now) => now.ns
    case Woke(now) => now.ns
    case _ => clock
  }

  ghost predicate IsRun(st: State, evs: seq<Event>, clock: int)
    decreases |evs|
  {
    evs == [] || (CanHappen(st, evs[0], clock) && IsRun(Apply(st, evs[0]), evs[1..], Clock(evs[0], clock)))
  }

  function After(st: State, evs: seq<Event>): State
    decreases |evs|
  {
    if evs == [] then st else After(Apply(st, evs[0]), evs[1..])
  }

  function EndClock(evs: seq<Event>, clock: int): int
    decreases |evs|
  {
    if evs == [] then clock else EndClock(evs[1..], Clock(evs[0], clock))
  }

  const EMPTY := State([], 0, false, [])

  /** What every reachable state satisfies. */
  ghost predicate Inv(st: State, clock: int) {
    DistinctIds(st.entries) &&
    (forall e <- st.entries :: 1 <= e.id <= st.nextID && e.schedule.Valid()) &&
    (forall l <- st.started :: l.id <= st.nextID && l.due.ns <= l.at.ns <= clock) &&
    (forall e <- st.entries, l <- st.started :: l.id == e.id && e.next.Some? ==> l.at.ns < e.next.value.ns) &&
    (forall i, j :: 0 <= i < j < |st.started| && st.started[i].id == st.started[j].id ==>
       st.started[i].at.ns < st.started[j].due.ns)
  }

  lemma InvStep(st: State, ev: Event, clock: int)
    requires Inv(st, clock) && CanHappen(st, ev, clock)
    ensures Inv(Apply(st, ev), Clock(ev, clock))
  {
    match ev {
      case Added(schedule, now) => NextAfterIsLater(schedule, now);
      case Removed(id) => WithoutDistinct(st.entries, id);
      case Started(now) => InvStarted(st, now, clock);
      case Armed(order) =>
      case Woke(now) => InvWoke(st, now, clock);
      case Stopped =>
    }
  }

  lemma InvStarted(st: State, now: Time, clock: int)
    requires Inv(st, clock) && now.ns >= clock
    ensures Inv(Apply(st, Started(now)), now.ns)
  {
    hide Schedule.NextAfter;
    forall e <- st.entries { NextAfterIsLater(e.schedule, now); }
  }

  lemma InvWoke(st: State, now: Time, clock: int)
    requires Inv(st, clock) && now.ns >= clock
    ensures Inv(Apply(st, Woke(now)), now.ns)
  {
    hide Schedule.NextAfter, Launches;
    var es, new' := st.entries, Launches(st.entries, now);
    forall e <- es { NextAfterIsLater(e.schedule, now); }
    WakeStartsTheDueOnce(es, now);
    var st' := Apply(st, Woke(now));
    forall l <- new'
      ensures exists k :: 0 <= k < |es| && es[k].IsDue(now) && l == Launch(es[k].id, es[k].next.value, now) {}
    forall k, l | 0 <= k < |es| && l in st'.started && l.id == es[k].id && es[k].Woken(now).next.Some?
      ensures l.at.ns < es[k].Woken(now).next.value.ns
    {
      if es[k].IsDue(now) { assert es[k] in es; }
    }
    AppendedOnce(st.started, new');
    forall i, j | 0 <= i < j < |st'.started| && st'.started[i].id == st'.started[j].id
      ensures st'.started[i].at.ns < st'.started[j].due.ns
    {
      if j >= |st.started| { assert st'.started[j] in new'; }
    }
  }

  /** Of two starts of one id in an extended list, the later one is new only if the earlier one is not. */
  lemma AppendedOnce(old': seq<Launch>, new': seq<Launch>)
    requires DistinctLaunches(new')
    ensures forall i, j :: 0 <= i < j < |old' + new'| && (old' + new')[i].id == (old' + new')[j].id ==> i < |old'|
  {
    var all := old' + new';
    assert forall i | |old'| <= i < |all| :: all[i] == new'[i - |old'|];
  }

  /** Over every run of the runner whose clock does not go back: entry ids are distinct, and an entry never
      starts for a time at or before one of its earlier starts. */
  lemma {:induction false} RunKeepsInv(st: State, evs: seq<Event>, clock: int)
    requires Inv(st, clock) && IsRun(st, evs, clock)
    ensures clock <= EndClock(evs, clock) && Inv(After(st, evs), EndClock(evs, clock))
    decreases |evs|
  {
    hide Apply, Inv;
    if evs != [] {
      InvStep(st, evs[0], clock);
      RunKeepsInv(Apply(st, evs[0]), evs[1..], Clock(evs[0], clock));
    }
  }

  lemma RunsFromEmpty(evs: seq<Event>, clock: int)
    requires IsRun(EMPTY, evs, clock)
    ensures Inv(After(EMPTY, evs), EndClock(evs, clock))
  {
    RunKeepsInv(EMPTY, evs, clock);
  }

  /** An id that was handed out and is no longer in the table is never started again, in any run. */
  lemma {:induction false} RemovedNeverStarts(st: State, evs: seq<Event>, clock: int, id: nat)
    requires Inv(st, clock) && IsRun(st, evs, clock)
    requires id <= st.nextID && forall e <- st.entries :: e.id != id
    ensures st.started <= After(st, evs).started
    ensures forall l <- After(st, evs).started[|st.started|..] :: l.id != id
    decreases |evs|
  {
    hide Inv, Launches, Schedule.NextAfter;
    if evs != [] {
      var st' := Apply(st, evs[0]);
      StepWithout(st, evs[0], clock, id);
      InvStep(st, evs[0], clock);
      RemovedNeverStarts(st', evs[1..], Clock(evs[0], clock), id);
      var end := After(st', evs[1..]).started;
      assert end[|st.started|..] == st'.started[|st.started|..] + end[|st'.started|..];
    }
  }

  lemma StepWithout(st: State, ev: Event, clock: int, id: nat)
    requires Inv(st, clock) && CanHappen(st, ev, clock)
    requires id <= st.nextID && forall e <- st.entries :: e.id != id
    ensures var st' := Apply(st, ev);
            st.started <= st'.started && st.nextID <= st'.nextID && (forall e <- st'.entries :: e.id != id) &&
            forall l <- st'.started[|st.started|..] :: l.id != id
  {
    if ev.Woke? {
      WakeStartsTheDueOnce(st.entries, ev.now);
      assert Apply(st, ev).started[|st.started|..] == Launches(st.entries, ev.now);
    } else {
      assert Apply(st, ev).started[|st.started|..] == [];
    }
  }

  /** The next time of an entry that stays in the table changes only when the runner starts, or when the
      entry itself is started: then `prev` is the old next time, which was due, and the new one is later. */
  lemma NextChangesOnlyByStarting(st: State, ev: Event, clock: int, e: EntryState, e': EntryState)
    requires Inv(st, clock) && CanHappen(st, ev, clock)
    requires e in st.entries && e' in Apply(st, ev).entries && e.id == e'.id && e != e'
    ensures e'.schedule == e.schedule
    ensures (ev.Started? && !st.running && e'.prev == e.prev && e'.next == e.schedule.NextAfter(ev.now)) ||
            (ev.Woke? && e.IsDue(ev.now) && Launch(e.id, e.next.value, ev.now) in Apply(st, ev).started &&
             e'.prev == e.next && e'.prev.value.ns <= ev.now.ns && e'.next == e.schedule.NextAfter(ev.now) &&
             (e'.next.Some? ==> ev.now.ns < e'.next.value.ns))
  {
    hide Launches, Schedule.NextAfter;
    InvStep(st, ev, clock);
    if ev.Woke? {
      NextAfterIsLater(e.schedule, ev.now);
      WakeStartsTheDueOnce(st.entries, ev.now);
    }
  }

  /** What a wake does to each entry: one whose next time is set and has come is given the activation after now, and
      its old next time as the previous one; the others stay as they are. */
  lemma WakeReschedules(st: State, now: Time, k: nat)
    requires k < |st.entries|
    ensures var st', e := Apply(st, Woke(now)), st.entries[k];
            |st'.entries| == |st.entries| &&
            st'.entries[k] == if e.next.Some? && e.next.value.ns <= now.ns then
                                EntryState(e.id, e.schedule, e.schedule.NextAfter(now), e.next)
                              else e
  {}

  /** The next time is the activation after some moment up to now: that of the last start, or of the addition or the
      start of the runner if that was later. */
  ghost predicate Planned(e: EntryState, clock: int) {
    exists t: Time :: Planning(e, t, clock)
  }

  ghost predicate Planning(e: EntryState, t: Time, clock: int) {
    t.ns <= clock && e.next == e.schedule.NextAfter(t) && (e.prev.Some? ==> e.prev.value.ns <= t.ns)
  }

  /** While the runner runs, every entry is planned; and no start was ever recorded for the future. */
  ghost predicate AllPlanned(st: State, clock: int) {
    (forall e <- st.entries :: e.prev.Some? ==> e.prev.value.ns <= clock) &&
    (st.running ==> forall e <- st.entries :: Planned(e, clock))
  }

  lemma PlannedLater(e: EntryState, clock: int, later: int)
    requires Planned(e, clock) && clock <= later
    ensures Planned(e, later)
  {
    hide Schedule.NextAfter;
    var t: Time :| Planning(e, t, clock);
    assert Planning(e, t, later);
  }

  lemma PlanKeeps(st: State, ev: Event, clock: int)
    requires AllPlanned(st, clock) && CanHappen(st, ev, clock)
    ensures AllPlanned(Apply(st, ev), Clock(ev, clock))
  {
    hide Schedule.NextAfter, Planned;
    var st', later := Apply(st, ev), Clock(ev, clock);
    forall e' | e' in st'.entries
      ensures e'.prev.Some? ==> e'.prev.value.ns <= later
      ensures st'.running ==> Planned(e', later)
    {
      if e' in st.entries {
        if st.running { PlannedLater(e', clock, later); }
        if !st.running && st'.running { PlannedBy(e', ev.now, later); }
      } else {
        NewlyPlanned(st, ev, clock, e');
      }
    }
  }

  lemma PlannedBy(e: EntryState, t: Time, clock: int)
    requires t.ns <= clock && e.next == e.schedule.NextAfter(t) && (e.prev.Some? ==> e.prev.value.ns <= t.ns)
    ensures Planned(e, clock)
  {
    assert Planning(e, t, clock);
  }

  lemma NewlyPlanned(st: State, ev: Event, clock: int, e': EntryState)
    requires AllPlanned(st, clock) && CanHappen(st, ev, clock) && e' in Apply(st, ev).entries && e' !in st.entries
    ensures e'.prev.Some? ==> e'.prev.value.ns <= Clock(ev, clock)
    ensures Apply(st, ev).running ==> Planned(e', Clock(ev, clock))
  {
    hide Schedule.NextAfter, Planned, Launches;
    var later := Clock(ev, clock);
    match ev {
      case Added(schedule, now) => if st.running { PlannedBy(e', now, later); }
      case Started(now) => if !st.running { PlannedBy(e', now, later); }
      case Woke(now) =>
        var k :| 0 <= k < |st.entries| && e' == st.entries[k].Woken(now);
        assert st.entries[k] in st.entries;
        PlannedBy(e', now, later);
      case _ =>
    }
  }

  /** In every run every entry of a running runner is planned. */
  lemma {:induction false} RunKeepsPlans(st: State, evs: seq<Event>, clock: int)
    requires AllPlanned(st, clock) && IsRun(st, evs, clock)
    ensures AllPlanned(After(st, evs), EndClock(evs, clock))
    decreases |evs|
  {
    hide Apply, AllPlanned;
    if evs != [] {
      PlanKeeps(st, evs[0], clock);
      RunKeepsPlans(Apply(st, evs[0]), evs[1..], Clock(evs[0], clock));
    }
  }

  /** So an entry that has no next time is one whose schedule had no activation left when it was last looked at, after
      its last start; an entry with a delay always has one, however often it was started. */
  lemma NobodyIsForgotten(evs: seq<Event>, clock: int, e: EntryState)
    requires IsRun(EMPTY, evs, clock) && After(EMPTY, evs).running && e in After(EMPTY, evs).entries
    ensures e.schedule.Delay? ==> e.next.Some?
    ensures e.next.None? ==>
              exists t: Time :: t.ns <= EndClock(evs, clock) && (e.prev.Some? ==> e.prev.value.ns <= t.ns) &&
                                e.schedule.NextAfter(t) == None
  {
    RunKeepsPlans(EMPTY, evs, clock);
    var t: Time :| Planning(e, t, EndClock(evs, clock));
  }

  /** Which entries there are after an event: those there were but for the ones it removes, and the one it adds, with
      the next id and, if the runner runs, with its first next time.  Only starting and stopping touch the running flag,
      and only a wake records starts. */
  lemma EntriesStay(st: State, ev: Event)
    ensures var st' := Apply(st, ev);
            (forall e <- st.entries :: !(ev.Removed? && ev.id == e.id) ==>
               exists e' <- st'.entries :: e'.id == e.id && e'.schedule == e.schedule) &&
            (forall e' <- st'.entries ::
               (ev.Added? && e' == EntryState(st.nextID + 1, ev.schedule,
                                              if st.running then ev.schedule.NextAfter(ev.now) else None, None)) ||
               exists e <- st.entries :: e'.id == e.id && e'.schedule == e.schedule &&
                                         !(ev.Removed? && ev.id == e.id)) &&
            |st'.entries| == (if ev.Removed? then |Without(st.entries, ev.id)|
                              else |st.entries| + if ev.Added? then 1 else 0) &&
            st'.nextID == (if ev.Added? then st.nextID + 1 else st.nextID) &&
            (st'.running <==> ev.Started? || (st.running && !ev.Stopped?)) &&
            (!ev.Woke? ==> st'.started == st.started)
  {
    hide Schedule.NextAfter, Launches;
    var st' := Apply(st, ev);
    match ev {
      case Added(schedule, now) =>
        var e' := st'.entries[|st.entries|];
        assert forall e <- st.entries :: e in st'.entries;
      case Removed(id) =>
      case Started(now) => SameEntries(st.entries, st'.entries);
      case Armed(order) =>
        if Permutation(order, |st.entries|) { PermutedEntries(st.entries, order); }
      case Woke(now) => SameEntries(st.entries, st'.entries);
      case Stopped =>
    }
  }

  lemma SameEntries(es: seq<EntryState>, es': seq<EntryState>)
    requires |es| == |es'| && forall k | 0 <= k < |es| :: es'[k].id == es[k].id && es'[k].schedule == es[k].schedule
    ensures forall e <- es :: exists e' <- es' :: e'.id == e.id && e'.schedule == e.schedule
    ensures forall e' <- es' :: exists e <- es :: e'.id == e.id && e'.schedule == e.schedule
  {
    forall e | e in es ensures exists e' <- es' :: e'.id == e.id && e'.schedule == e.schedule {
      var k :| 0 <= k < |es| && es[k] == e;
      assert es'[k] in es';
    }
    forall e' | e' in es' ensures exists e <- es :: e'.id == e.id && e'.schedule == e.schedule {
      var k :| 0 <= k < |es'| && es'[k] == e';
      assert es[k] in es;
    }
  }

  lemma PermutedEntries(es: seq<EntryState>, order: seq<nat>)
    requires Permutation(order, |es|)
    ensures forall e :: e in Permuted(es, order) <==> e in es
  {
    forall e | e in es ensures e in Permuted(es, order) {
      var k: nat :| k < |es| && es[k] == e;
      assert k in order;
      var i :| 0 <= i < |order| && order[i] == k;
      assert Permuted(es, order)[i] == e;
    }
  }
}
