/** The circuit breaker in front of the document service, under every interleaving of its locked sections. */
module HealthChecker {
  import opened Options

  datatype Config = Config(checkInterval: int, failureThreshold: int, recoveryTimeout: int)

  /** The fields the mutex guards; times are instants of one clock. */
  datatype Breaker = Breaker(isHealthy: bool, lastCheckTime: int, failureCount: int, circuitOpen: bool,
                             circuitOpenAt: int)

  const INITIAL := Breaker(true, 0, 0, false, 0)

  function Opened(b: Breaker, now: int): Breaker { b.(circuitOpen := true, circuitOpenAt := now) }

  /** A health check from `start` to `end`, with the outcome `ok`. */
  function Checked(cfg: Config, b: Breaker, start: int, end: int, ok: bool): Breaker {
    if ok then b.(lastCheckTime := start, failureCount := 0, isHealthy := true)
    else
      var b1 := b.(lastCheckTime := start, failureCount := b.failureCount + 1, isHealthy := false);
      if b1.failureCount >= cfg.failureThreshold then Opened(b1, end) else b1
  }

  predicate MayProbe(cfg: Config, b: Breaker, now: int) { now - b.circuitOpenAt >= cfg.recoveryTimeout }

  /** A recovery attempt; before the timeout it does nothing. */
  function Probed(cfg: Config, b: Breaker, start: int, end: int, ok: bool): Breaker {
    if !MayProbe(cfg, b, start) then b
    else if ok then b.(lastCheckTime := start, circuitOpen := false, failureCount := 0, isHealthy := true)
    else b.(lastCheckTime := start, circuitOpenAt := end)
  }

  function Succeeded(b: Breaker): Breaker { b.(failureCount := 0, isHealthy := true, circuitOpen := false) }

  function Failed(cfg: Config, b: Breaker, now: int): Breaker {
    var b1 := b.(failureCount := b.failureCount + 1);
    if b1.failureCount >= cfg.failureThreshold && !b1.circuitOpen then Opened(b1, now) else b1
  }

  /** What a call does after reading the fields: answer from memory, check, or try to recover. */
  datatype Plan = Answer(healthy: bool) | DoCheck | DoProbe

  function Planned(cfg: Config, b: Breaker, now: int): Plan {
    if b.circuitOpen then DoProbe
    else if now - b.lastCheckTime >= cfg.checkInterval then DoCheck
    else Answer(b.isHealthy)
  }

  /** A call at `now`; if it makes a health check, that runs from `start` to `end` with the outcome `ok`. */
  datatype Question = Question(now: int, start: int, end: int, ok: bool)

  /** The fields after an undisturbed call, and its answer. */
  function Asked(cfg: Config, b: Breaker, q: Question): (Breaker, bool) {
    match Planned(cfg, b, q.now)
    case Answer(healthy) => (b, healthy)
    case DoCheck => (Checked(cfg, b, q.start, q.end, q.ok), q.ok)
    case DoProbe => (Probed(cfg, b, q.start, q.end, q.ok), q.ok && MayProbe(cfg, b, q.start))
  }

  class HealthChecker {
    var isHealthy: bool
    var lastCheckTime: int
    var failureCount: int
    var circuitOpen: bool
    var circuitOpenAt: int
    const cfg: Config

    ghost function Now(): Breaker
      reads this
    {
      Breaker(isHealthy, lastCheckTime, failureCount, circuitOpen, circuitOpenAt)
    }

    constructor (cfg: Config)
      ensures Now() == INITIAL && this.cfg == cfg
    {
      isHealthy, lastCheckTime, failureCount, circuitOpen, circuitOpenAt, this.cfg := true, 0, 0, false, 0, cfg;
    }

    method OpenCircuit(now: int)
      modifies this
      ensures Now() == Opened(old(Now()), now)
    {
      circuitOpen, circuitOpenAt := true, now;
    }

    method PerformCheck(start: int, end: int, ok: bool) returns (healthy: bool)
      modifies this
      ensures Now() == Checked(cfg, old(Now()), start, end, ok) && healthy == ok
    {
      lastCheckTime := start;
      if !ok {
        failureCount, isHealthy := failureCount + 1, false;
        if failureCount >= cfg.failureThreshold {
          OpenCircuit(end);
        }
        return false;
      }
      failureCount, isHealthy := 0, true;
      return true;
    }

    method TryRecovery(start: int, end: int, ok: bool) returns (healthy: bool)
      modifies this
      ensures Now() == Probed(cfg, old(Now()), start, end, ok) && healthy == (ok && MayProbe(cfg, old(Now()), start))
    {
      if start - circuitOpenAt < cfg.recoveryTimeout {
        return false;
      }
      lastCheckTime := start;
      if !ok {
        circuitOpenAt := end;
        return false;
      }
      circuitOpen, failureCount, isHealthy := false, 0, true;
      return true;
    }

    /** The call when no other section comes between reading the fields and acting on them. */
    method IsHealthy(q: Question) returns (healthy: bool)
      modifies this
      ensures (Now(), healthy) == Asked(cfg, old(Now()), q)
    {
      var timeSinceLastCheck, cachedHealthy := q.now - lastCheckTime, isHealthy;
      if circuitOpen {
        healthy := TryRecovery(q.start, q.end, q.ok);
        return;
      }
      if timeSinceLastCheck >= cfg.checkInterval {
        healthy := PerformCheck(q.start, q.end, q.ok);
        return;
      }
      return cachedHealthy;
    }

    method RecordSuccess()
      modifies this
      ensures Now() == Succeeded(old(Now()))
    {
      failureCount, isHealthy := 0, true;
      if circuitOpen {
        circuitOpen := false;
      }
    }

    method RecordFailure(now: int)
      modifies this
      ensures Now() == Failed(cfg, old(Now()), now)
    {
      failureCount := failureCount + 1;
      if failureCount >= cfg.failureThreshold && !circuitOpen {
        OpenCircuit(now);
      }
    }

    method ForceOpen(now: int)
      modifies this
      ensures Now() == Opened(old(Now()), now).(isHealthy := false)
    {
      circuitOpen, circuitOpenAt, isHealthy := true, now, false;
    }

    method ForceClose()
      modifies this
      ensures Now() == Succeeded(old(Now()))
    {
      circuitOpen, failureCount, isHealthy := false, 0, true;
    }
  }

  /** A call lets its caller through an open breaker only by closing it with a probe that succeeds after the timeout. */
  lemma OpenBreakerAnswers(cfg: Config, b: Breaker, q: Question)
    requires b.circuitOpen
    ensures Asked(cfg, b, q).1 <==> q.start - b.circuitOpenAt >= cfg.recoveryTimeout && q.ok
    ensures Asked(cfg, b, q).1 <==> !Asked(cfg, b, q).0.circuitOpen
  {}

  /** While the breaker is closed a call checks exactly when the check interval has passed since the last check, and
      then the outcome is the answer and is remembered; otherwise it answers what is remembered and changes nothing. */
  lemma ClosedBreakerAnswers(cfg: Config, b: Breaker, q: Question)
    requires !b.circuitOpen
    ensures var (end, healthy) := Asked(cfg, b, q);
            if q.now - b.lastCheckTime < cfg.checkInterval then end == b && healthy == b.isHealthy
            else
              healthy == q.ok == end.isHealthy && end.lastCheckTime == q.start &&
              end.failureCount == (if q.ok then 0 else b.failureCount + 1) &&
              (end.circuitOpen <==> !q.ok && b.failureCount + 1 >= cfg.failureThreshold) &&
              (end.circuitOpen ==> end.circuitOpenAt == q.end)
  {}

  // ----- interleavings -----

  /** One locked section of one call.  A call that observed the fields acts in a later section. */
  datatype Event =
    | Observe(call: nat, now: int)
    | Check(call: nat, now: int, end: int, ok: bool)
    | Probe(call: nat, now: int, end: int, ok: bool)
    | Success
    | Failure(now: int)
    | Open(now: int)
    | Close

  /** The breaker, and what the calls under way have decided to do. */
  datatype State = State(breaker: Breaker, plans: map<nat, Plan>)

  const START := State(INITIAL, map[])

  function Apply(cfg: Config, st: State, ev: Event): State {
    match ev
    case Observe(call, now) =>
      (match Planned(cfg, st.breaker, now)
       case Answer(_) => st
       case plan => st.(plans := st.plans[call := plan]))
    case Check(call, now, end, ok) => State(Checked(cfg, st.breaker, now, end, ok), st.plans - {call})
    case Probe(call, now, end, ok) => State(Probed(cfg, st.breaker, now, end, ok), st.plans - {call})
    case Success => st.(breaker := Succeeded(st.breaker))
    case Failure(now) => st.(breaker := Failed(cfg, st.breaker, now))
    case Open(now) => st.(breaker := Opened(st.breaker, now).(isHealthy := false))
    case Close => st.(breaker := Succeeded(st.breaker))
  }

  /** Checks and probes are made by calls that decided on them, and the clock does not go back. */
  predicate CanHappen(st: State, ev: Event, clock: int) {
    match ev
    case Observe(call, now) => call !in st.plans && now >= clock
    case Check(call, now, end, _) => call in st.plans && st.plans[call] == DoCheck && clock <= now <= end
    case Probe(call, now, end, _) => call in st.plans && st.plans[call] == DoProbe && clock <= now <= end
    case Failure(now) => now >= clock
    case Open(now) => now >= clock
    case _ => true
  }

  function EndOf(ev: Event, clock: int): int {
    match ev
    case Observe(_, now) => now
    case Check(_, _, end, _) => end
    case Probe(_, _, end, _) => end
    case Failure(now) => now
    case Open(now) => now
    case _ => clock
  }

  function Front(evs: seq<Event>): seq<Event>
    requires evs != []
  {
    evs[..|evs| - 1]
  }

  function Last(evs: seq<Event>): Event
    requires evs != []
  {
    evs[|evs| - 1]
  }

  function After(cfg: Config, evs: seq<Event>): State {
    if evs == [] then START else Apply(cfg, After(cfg, Front(evs)), Last(evs))
  }

  /** The time at the end of a history that starts at time 0. */
  function ClockOf(evs: seq<Event>): int {
    if evs == [] then 0 else EndOf(Last(evs), ClockOf(Front(evs)))
  }

  predicate IsHistory(cfg: Config, evs: seq<Event>) {
    evs == [] || (IsHistory(cfg, Front(evs)) && CanHappen(After(cfg, Front(evs)), Last(evs), ClockOf(Front(evs))))
  }

  /** The event made the recovery probe, rather than finding that it was too early. */
  predicate Probes(cfg: Config, st: State, ev: Event) { ev.Probe? && MayProbe(cfg, st.breaker, ev.now) }

  /** Failures since the last success or forced close; failed probes are not among them. */
  function FailuresSinceSuccess(cfg: Config, evs: seq<Event>): nat {
    if evs == [] then 0
    else
      var before := FailuresSinceSuccess(cfg, Front(evs));
      match Last(evs)
      case Check(_, _, _, ok) => if ok then 0 else before + 1
      case Probe(_, _, _, ok) => if ok && Probes(cfg, After(cfg, Front(evs)), Last(evs)) then 0 else before
      case Success => 0
      case Close => 0
      case Failure(_) => before + 1
      case _ => before
  }

  /** Over every history the count is that number, and a closed breaker's count is below the threshold. */
  lemma {:induction false} CountIsFailuresSinceSuccess(cfg: Config, evs: seq<Event>)
    requires IsHistory(cfg, evs)
    ensures After(cfg, evs).breaker.failureCount == FailuresSinceSuccess(cfg, evs)
  {
    if evs != [] { CountIsFailuresSinceSuccess(cfg, Front(evs)); }
  }

  lemma {:induction false} ClosedIsBelowThreshold(cfg: Config, evs: seq<Event>)
    requires IsHistory(cfg, evs) && cfg.failureThreshold >= 1
    ensures var b := After(cfg, evs).breaker; !b.circuitOpen ==> b.failureCount < cfg.failureThreshold
  {
    if evs != [] { ClosedIsBelowThreshold(cfg, Front(evs)); }
  }

  /** Every history in which the count reached the threshold leaves the breaker open until a success or a forced
      close. */
  lemma EnoughFailuresOpen(cfg: Config, evs: seq<Event>)
    requires IsHistory(cfg, evs) && cfg.failureThreshold >= 1 && FailuresSinceSuccess(cfg, evs) >= cfg.failureThreshold
    ensures After(cfg, evs).breaker.circuitOpen
  {
    CountIsFailuresSinceSuccess(cfg, evs);
    ClosedIsBelowThreshold(cfg, evs);
  }

  /** What the last event that settled the service's health said; a recorded failure and a failed probe do not. */
  function LastOutcome(cfg: Config, evs: seq<Event>): bool {
    if evs == [] then true
    else
      var before := LastOutcome(cfg, Front(evs));
      match Last(evs)
      case Check(_, _, _, ok) => ok
      case Probe(_, _, _, ok) => before || (ok && Probes(cfg, After(cfg, Front(evs)), Last(evs)))
      case Success => true
      case Close => true
      case Open(_) => false
      case _ => before
  }

  /** When the service was last asked, by a check or by a probe that was not too early. */
  function LastAsked(cfg: Config, evs: seq<Event>): int {
    if evs == [] then 0
    else
      match Last(evs)
      case Check(_, now, _, _) => now
      case Probe(_, now, _, _) =>
        if Probes(cfg, After(cfg, Front(evs)), Last(evs)) then now else LastAsked(cfg, Front(evs))
      case _ => LastAsked(cfg, Front(evs))
  }

  /** Over every history the remembered answer and its time are those. */
  lemma {:induction false} RemembersTheLastOutcome(cfg: Config, evs: seq<Event>)
    requires IsHistory(cfg, evs)
    ensures After(cfg, evs).breaker.isHealthy == LastOutcome(cfg, evs)
    ensures After(cfg, evs).breaker.lastCheckTime == LastAsked(cfg, evs)
  {
    if evs != [] { RemembersTheLastOutcome(cfg, Front(evs)); }
  }

  /** So a call that answers from memory answers the last outcome, not older than the check interval. */
  lemma AnswersAreFresh(cfg: Config, evs: seq<Event>, now: int)
    requires IsHistory(cfg, evs) && Planned(cfg, After(cfg, evs).breaker, now).Answer?
    ensures Planned(cfg, After(cfg, evs).breaker, now).healthy == LastOutcome(cfg, evs)
    ensures now - LastAsked(cfg, evs) < cfg.checkInterval && !After(cfg, evs).breaker.circuitOpen
  {
    RemembersTheLastOutcome(cfg, evs);
  }

  /** The event starts the wait anew: it opens the breaker, or it is a probe that failed. */
  predicate StartsWait(cfg: Config, st: State, ev: Event) {
    match ev
    case Check(_, _, _, ok) => !ok && st.breaker.failureCount + 1 >= cfg.failureThreshold
    case Probe(_, _, _, ok) => !ok && Probes(cfg, st, ev)
    case Failure(_) => st.breaker.failureCount + 1 >= cfg.failureThreshold && !st.breaker.circuitOpen
    case Open(_) => true
    case _ => false
  }

  /** When the last event that started a wait did so. */
  function WaitStart(cfg: Config, evs: seq<Event>): int {
    if evs == [] then 0
    else if StartsWait(cfg, After(cfg, Front(evs)), Last(evs)) then EndOf(Last(evs), 0)
    else WaitStart(cfg, Front(evs))
  }

  /** The time the wait counts from is exactly that, over every history. */
  lemma {:induction false} WaitStartIsLast(cfg: Config, evs: seq<Event>)
    requires IsHistory(cfg, evs)
    ensures After(cfg, evs).breaker.circuitOpenAt == WaitStart(cfg, evs)
  {
    if evs != [] { WaitStartIsLast(cfg, Front(evs)); }
  }

  lemma {:induction false} ClockNeverBack(cfg: Config, evs: seq<Event>, i: nat)
    requires IsHistory(cfg, evs) && i <= |evs|
    ensures IsHistory(cfg, evs[..i]) && ClockOf(evs[..i]) <= ClockOf(evs)
  {
    if i == |evs| {
      assert evs[..i] == evs;
    } else {
      assert Front(evs)[..i] == evs[..i];
      ClockNeverBack(cfg, Front(evs), i);
    }
  }

  /** The wait counts from the last event that started one: it is at least as late as any of them. */
  lemma {:induction false} WaitCountsFromTheLast(cfg: Config, evs: seq<Event>, i: nat)
    requires IsHistory(cfg, evs) && i < |evs| && StartsWait(cfg, After(cfg, evs[..i]), evs[i])
    ensures After(cfg, evs).breaker.circuitOpenAt >= EndOf(evs[i], 0)
  {
    if i == |evs| - 1 {
      assert Front(evs) == evs[..i];
    } else {
      assert Front(evs)[..i] == evs[..i] && Front(evs)[i] == evs[i];
      WaitCountsFromTheLast(cfg, Front(evs), i);
      ClockNeverBack(cfg, Front(evs), i + 1);
      assert evs[..i + 1] == Front(evs)[..i + 1] && Front(Front(evs)[..i + 1]) == evs[..i];
      assert Last(Front(evs)[..i + 1]) == evs[i];
    }
  }

  /** Whatever the interleaving, a probe starts at least the recovery timeout after every earlier opening of the
      breaker and after every earlier failed probe. */
  lemma ProbesWait(cfg: Config, evs: seq<Event>, i: nat, j: nat)
    requires IsHistory(cfg, evs) && i < j < |evs|
    requires StartsWait(cfg, After(cfg, evs[..i]), evs[i]) && Probes(cfg, After(cfg, evs[..j]), evs[j])
    ensures evs[j].now - EndOf(evs[i], 0) >= cfg.recoveryTimeout
  {
    ClockNeverBack(cfg, evs, j);
    assert evs[..j][..i] == evs[..i];
    WaitCountsFromTheLast(cfg, evs[..j], i);
  }

  /** A call that observed the breaker open can still probe after another call closed it, and its failure then
      restarts the wait without opening the breaker. */
  lemma LateProbe(cfg: Config)
    requires cfg.recoveryTimeout >= 0 && cfg.failureThreshold >= 1
    ensures var t := cfg.recoveryTimeout;
            var evs := [Open(0), Observe(1, 0), Success, Probe(1, t, t + 1, false)];
            IsHistory(cfg, evs) && !After(cfg, evs).breaker.circuitOpen &&
              After(cfg, evs).breaker.circuitOpenAt == t + 1 &&
            After(cfg, evs).breaker.failureCount == 0
  {
    var t := cfg.recoveryTimeout;
    var a, b, c, d := Open(0), Observe(1, 0), Success, Probe(1, t, t + 1, false);
    assert Front([a]) == [] && Last([a]) == a;
    assert Front([a, b]) == [a] && Last([a, b]) == b;
    assert Front([a, b, c]) == [a, b] && Last([a, b, c]) == c;
    assert Front([a, b, c, d]) == [a, b, c] && Last([a, b, c, d]) == d;
    assert After(cfg, [a]) == State(Breaker(false, 0, 0, true, 0), map[]);
    assert After(cfg, [a, b]) == State(Breaker(false, 0, 0, true, 0), map[1 := DoProbe]);
    assert After(cfg, [a, b, c]) == State(Breaker(true, 0, 0, false, 0), map[1 := DoProbe]);
    assert IsHistory(cfg, [a]);
    assert IsHistory(cfg, [a, b]);
    assert IsHistory(cfg, [a, b, c]);
  }
}
