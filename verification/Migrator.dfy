/** The migration runner: which scripts run, in which order, and what a run leaves behind. */
module Migrator {
  import opened Options
  import opened Text

  datatype Version = Version(major: nat, minor: nat, patch: nat)

  const DEFAULT_VERSION := Version(0, 0, 0)
  const MINIMUM := Version(0, 22, 0)

  /** Precedence of versions, section 11 of Semantic Versioning 2.0.0. */
  predicate Less(a: Version, b: Version) {
    a.major < b.major || (a.major == b.major && (a.minor < b.minor || (a.minor == b.minor && a.patch < b.patch)))
  }

  /** A script `base/major.minor/NN__description.sql`, `NN` being the patch number in at least two digits. */
  datatype Script = Script(major: nat, minor: nat, patch: nat, description: string)

  /** The schema version a script leads to. */
  function VersionOf(s: Script): Version { Version(s.major, s.minor, s.patch + 1) }

  function Padded(n: nat): string { if n < 10 then "0" + Decimal(n) else Decimal(n) }

  function Directory(s: Script): string { Decimal(s.major) + "." + Decimal(s.minor) }

  function PathOf(base: string, s: Script): string {
    base + (Directory(s) + ("/" + (Padded(s.patch) + ("__" + s.description + ".sql"))))
  }

  // ----- path order -----

  /** Texts of the same length in front decide, and only if they are equal does the rest. */
  lemma {:induction false} FrontDecides(x: string, y: string, u: string, v: string)
    requires |x| == |y|
    ensures StrLess(x + u, y + v) <==> StrLess(x, y) || (x == y && StrLess(u, v))
  {
    if x == "" {
      assert x + u == u && y + v == v;
    } else {
      assert (x + u)[1..] == x[1..] + u && (y + v)[1..] == y[1..] + v;
      FrontDecides(x[1..], y[1..], u, v);
      assert x == [x[0]] + x[1..] && y == [y[0]] + y[1..];
    }
  }

  lemma {:induction false} Irreflexive(s: string)
    ensures !StrLess(s, s)
  {
    if s != "" { Irreflexive(s[1..]); }
  }

  /** Decimal numbers of the same width are ordered as texts as they are as numbers. */
  lemma {:induction false} DecimalOrder(a: nat, b: nat)
    requires |Decimal(a)| == |Decimal(b)|
    ensures StrLess(Decimal(a), Decimal(b)) <==> a < b
    ensures Decimal(a) == Decimal(b) <==> a == b
  {
    if a < 10 {
      DigitOrder(a, b);
    } else {
      DecimalOrder(a / 10, b / 10);
      DigitOrder(a % 10, b % 10);
      FrontDecides(Decimal(a / 10), Decimal(b / 10), [Digit(a % 10)], [Digit(b % 10)]);
      assert Decimal(a)[..|Decimal(a)| - 1] == Decimal(a / 10) && Decimal(b)[..|Decimal(b)| - 1] == Decimal(b / 10);
      assert Decimal(a)[|Decimal(a)| - 1] == Digit(a % 10) && Decimal(b)[|Decimal(b)| - 1] == Digit(b % 10);
      assert a == a / 10 * 10 + a % 10 && b == b / 10 * 10 + b % 10;
    }
  }

  lemma DigitOrder(a: nat, b: nat)
    requires a < 10 && b < 10
    ensures StrLess([Digit(a)], [Digit(b)]) <==> a < b
    ensures [Digit(a)] == [Digit(b)] <==> a == b
  {
    assert [Digit(a)][0] == Digit(a) && [Digit(b)][0] == Digit(b);
  }

  lemma PaddedOrder(a: nat, b: nat)
    requires a < 100 && b < 100
    ensures |Padded(a)| == |Padded(b)| == 2
    ensures StrLess(Padded(a), Padded(b)) <==> a < b
    ensures Padded(a) == Padded(b) <==> a == b
  {
    TwoDigits(a);
    TwoDigits(b);
    DigitOrder(a / 10, b / 10);
    DigitOrder(a % 10, b % 10);
    FrontDecides([Digit(a / 10)], [Digit(b / 10)], [Digit(a % 10)], [Digit(b % 10)]);
    assert a == a / 10 * 10 + a % 10 && b == b / 10 * 10 + b % 10;
  }

  lemma TwoDigits(n: nat)
    requires n < 100
    ensures Padded(n) == [Digit(n / 10)] + [Digit(n % 10)]
  {
    if n < 10 { assert "0" == [Digit(0)]; } else { assert Decimal(n / 10) == [Digit(n / 10)]; }
  }

  /** Directory names of the same width, and patch numbers of two digits. */
  predicate SameWidth(a: Script, b: Script) {
    |Decimal(a.major)| == |Decimal(b.major)| && |Decimal(a.minor)| == |Decimal(b.minor)| && a.patch < 100 &&
    b.patch < 100
  }

  lemma DirectoryOrder(a: Script, b: Script)
    requires SameWidth(a, b)
    ensures |Directory(a)| == |Directory(b)|
    ensures StrLess(Directory(a), Directory(b)) <==> a.major < b.major || (a.major == b.major && a.minor < b.minor)
    ensures Directory(a) == Directory(b) <==> a.major == b.major && a.minor == b.minor
  {
    hide Decimal;
    DecimalOrder(a.major, b.major);
    DecimalOrder(a.minor, b.minor);
    var x, y := Decimal(a.major) + ".", Decimal(b.major) + ".";
    FrontDecides(Decimal(a.major), Decimal(b.major), ".", ".");
    Irreflexive(".");
    FrontDecides(x, y, Decimal(a.minor), Decimal(b.minor));
    assert x[..|x| - 1] == Decimal(a.major) && y[..|y| - 1] == Decimal(b.major);
    assert (x + Decimal(a.minor))[..|x|] == x && (y + Decimal(b.minor))[..|y|] == y;
    assert (x + Decimal(a.minor))[|x|..] == Decimal(a.minor) && (y + Decimal(b.minor))[|y|..] == Decimal(b.minor);
  }

  /** With names of the same width, path order is version order: an earlier version has the earlier path. */
  lemma PathOrderIsVersionOrder(base: string, a: Script, b: Script)
    requires SameWidth(a, b)
    ensures Less(VersionOf(a), VersionOf(b)) ==> StrLess(PathOf(base, a), PathOf(base, b))
    ensures StrLess(PathOf(base, a), PathOf(base, b)) ==> !Less(VersionOf(b), VersionOf(a))
  {
    hide Decimal, Directory, Padded;
    var u, v := "__" + a.description + ".sql", "__" + b.description + ".sql";
    DirectoryOrder(a, b);
    PaddedOrder(a.patch, b.patch);
    Irreflexive(base);
    Irreflexive("/");
    FrontDecides(base, base, Directory(a) + ("/" + (Padded(a.patch) + u)),
                 Directory(b) + ("/" + (Padded(b.patch) + v)));
    FrontDecides(Directory(a), Directory(b), "/" + (Padded(a.patch) + u), "/" + (Padded(b.patch) + v));
    FrontDecides("/", "/", Padded(a.patch) + u, Padded(b.patch) + v);
    FrontDecides(Padded(a.patch), Padded(b.patch), u, v);
  }

  /** Widths matter: `0.10` stands before `0.2`. */
  lemma WidthsMatter(base: string, patch: nat, description: string)
    ensures var a, b := Script(0, 10, patch, description), Script(0, 2, patch, description);
            StrLess(PathOf(base, a), PathOf(base, b)) && Less(VersionOf(b), VersionOf(a))
  {
    var a, b := Script(0, 10, patch, description), Script(0, 2, patch, description);
    var u := "/" + (Padded(patch) + ("__" + description + ".sql"));
    assert Decimal(0) == "0" && Decimal(2) == "2" && Decimal(1) == "1";
    assert Decimal(10) == Decimal(1) + "0" == "10";
    assert Directory(a) + u == "0." + ("10" + u) && Directory(b) + u == "0." + ("2" + u);
    assert ("10" + u)[0] == '1' && ("2" + u)[0] == '2';
    Irreflexive("0.");
    Irreflexive(base);
    FrontDecides("0.", "0.", "10" + u, "2" + u);
    FrontDecides(base, base, Directory(a) + u, Directory(b) + u);
  }

  // ----- which scripts run -----

  predicate ShouldApply(file: Version, current: Version, target: Version) { Less(current, file) && !Less(target, file) }

  /** The scripts a migration from `current` to `target` runs, in their order. */
  function Selected(scripts: seq<Script>, current: Version, target: Version): (r: seq<Script>)
    ensures forall s :: s in r <==> s in scripts && ShouldApply(VersionOf(s), current, target)
  {
    if scripts == [] then []
    else
      (if ShouldApply(VersionOf(scripts[0]), current, target) then [scripts[0]] else []) +
      Selected(scripts[1..], current, target)
  }

  /** The scripts later than `current` stand in version order; the others do not matter. */
  predicate OrderedAfter(scripts: seq<Script>, current: Version) {
    forall i, j :: 0 <= i < j < |scripts| &&
                   Less(current, VersionOf(scripts[i])) && Less(current, VersionOf(scripts[j])) ==>
                     !Less(VersionOf(scripts[j]), VersionOf(scripts[i]))
  }

  /** Migrating by way of `mid` runs the scripts of migrating at once, in the same order. */
  predicate Composes(scripts: seq<Script>, current: Version, mid: Version, target: Version) {
    Selected(scripts, current, mid) + Selected(scripts, mid, target) == Selected(scripts, current, target)
  }

  predicate Between(current: Version, mid: Version, target: Version) { !Less(mid, current) && !Less(target, mid) }

  lemma OrderedTail(scripts: seq<Script>, current: Version)
    requires scripts != [] && OrderedAfter(scripts, current)
    ensures OrderedAfter(scripts[1..], current)
  {
    var rest := scripts[1..];
    forall i, j | 0 <= i < j < |rest| && Less(current, VersionOf(rest[i])) && Less(current, VersionOf(rest[j]))
      ensures !Less(VersionOf(rest[j]), VersionOf(rest[i]))
    {
      assert rest[i] == scripts[i + 1] && rest[j] == scripts[j + 1];
    }
  }

  lemma {:induction false} OrderedComposes(scripts: seq<Script>, current: Version, mid: Version, target: Version)
    requires OrderedAfter(scripts, current) && Between(current, mid, target)
    ensures Composes(scripts, current, mid, target)
  {
    if scripts != [] {
      OrderedTail(scripts, current);
      OrderedComposes(scripts[1..], current, mid, target);
      if ShouldApply(VersionOf(scripts[0]), mid, target) { NothingBefore(scripts, current, mid); }
    }
  }

  lemma FirstOf(a: seq<Script>, b: seq<Script>)
    ensures a == [] || (|a + b| > 0 && (a + b)[0] == a[0] && a[0] in a)
  {}

  lemma NoneSelected(scripts: seq<Script>, current: Version, target: Version)
    requires forall s <- scripts :: !ShouldApply(VersionOf(s), current, target)
    ensures Selected(scripts, current, target) == []
  {
    FirstOf(Selected(scripts, current, target), []);
  }

  lemma NothingBefore(scripts: seq<Script>, current: Version, mid: Version)
    requires scripts != [] && OrderedAfter(scripts, current) && !Less(mid, current) && Less(mid, VersionOf(scripts[0]))
    ensures Selected(scripts[1..], current, mid) == []
  {
    var rest := scripts[1..];
    forall r | r in rest ensures !ShouldApply(VersionOf(r), current, mid) {
      var i :| 0 <= i < |rest| && rest[i] == r;
      assert scripts[i + 1] == r;
    }
    NoneSelected(rest, current, mid);
  }

  /** If migrating by way of `mid` does the same as migrating at once, it does so without the first script, and
      nothing up to `mid` stands behind a first script that is later. */
  lemma ComposesTail(scripts: seq<Script>, current: Version, mid: Version, target: Version)
    requires scripts != [] && Between(current, mid, target) && Composes(scripts, current, mid, target)
    ensures Composes(scripts[1..], current, mid, target)
    ensures ShouldApply(VersionOf(scripts[0]), mid, target) ==> Selected(scripts[1..], current, mid) == []
  {
    hide Selected, ShouldApply;
    var s, rest := scripts[0], scripts[1..];
    var a, b, c := Selected(rest, current, mid), Selected(rest, mid, target), Selected(rest, current, target);
    SelectedStep(scripts, current, mid);
    SelectedStep(scripts, mid, target);
    SelectedStep(scripts, current, target);
    AppliesOnce(s, current, mid, target);
    if ShouldApply(VersionOf(s), current, mid) {
      assert [s] + a + b == [s] + (a + b);
      HeadCancels(s, a + b, c);
    } else if ShouldApply(VersionOf(s), mid, target) {
      FirstOf(a, [s] + b);
      assert ([s] + c)[0] == s;
      assert a == [];
      assert [] + ([s] + b) == [s] + b;
      HeadCancels(s, b, c);
    }
  }

  lemma HeadCancels(s: Script, a: seq<Script>, c: seq<Script>)
    requires [s] + a == [s] + c
    ensures a == c
  {
    assert ([s] + a)[1..] == a && ([s] + c)[1..] == c;
  }

  /** A script that is selected on the way is selected on exactly one of the two parts. */
  lemma AppliesOnce(s: Script, current: Version, mid: Version, target: Version)
    requires Between(current, mid, target)
    ensures ShouldApply(VersionOf(s), current, target) <==>
            ShouldApply(VersionOf(s), current, mid) || ShouldApply(VersionOf(s), mid, target)
    ensures !(ShouldApply(VersionOf(s), current, mid) && ShouldApply(VersionOf(s), mid, target))
  {}

  lemma SelectedStep(scripts: seq<Script>, current: Version, target: Version)
    requires scripts != []
    ensures Selected(scripts, current, target) ==
            if ShouldApply(VersionOf(scripts[0]), current, target) then
              [scripts[0]] + Selected(scripts[1..], current, target)
            else Selected(scripts[1..], current, target)
  {}

  ghost predicate AlwaysComposes(scripts: seq<Script>, current: Version) {
    forall mid, target :: Between(current, mid, target) ==> Composes(scripts, current, mid, target)
  }

  lemma {:induction false} ComposingIsOrdered(scripts: seq<Script>, current: Version)
    requires AlwaysComposes(scripts, current)
    ensures OrderedAfter(scripts, current)
  {
    if scripts != [] {
      var rest := scripts[1..];
      forall mid, target | Between(current, mid, target) ensures Composes(rest, current, mid, target) {
        ComposesTail(scripts, current, mid, target);
      }
      ComposingIsOrdered(rest, current);
      forall i, j | 0 <= i < j < |scripts| && Less(current, VersionOf(scripts[i])) &&
                    Less(current, VersionOf(scripts[j]))
        ensures !Less(VersionOf(scripts[j]), VersionOf(scripts[i]))
      {
        assert rest[j - 1] == scripts[j];
        if i > 0 { assert rest[i - 1] == scripts[i]; } else { HeadIsNotLater(scripts, current, scripts[j]); }
      }
    }
  }

  lemma HeadIsNotLater(scripts: seq<Script>, current: Version, r: Script)
    requires AlwaysComposes(scripts, current) && scripts != [] && r in scripts[1..]
    requires Less(current, VersionOf(r))
    ensures !Less(VersionOf(r), VersionOf(scripts[0]))
  {
    var v, top := VersionOf(r), VersionOf(scripts[0]);
    assert r in Selected(scripts[1..], current, v);
    if Less(v, top) && Between(current, v, top) { ComposesTail(scripts, current, v, top); }
  }

  /** From a given version, going by way of any version between always runs the same scripts in the same order
      exactly when the scripts later than it are in version order. */
  lemma ComposesIffOrdered(scripts: seq<Script>, current: Version)
    ensures AlwaysComposes(scripts, current) <==> OrderedAfter(scripts, current)
  {
    if AlwaysComposes(scripts, current) { ComposingIsOrdered(scripts, current); }
    if OrderedAfter(scripts, current) {
      forall mid, target | Between(current, mid, target) ensures Composes(scripts, current, mid, target) {
        OrderedComposes(scripts, current, mid, target);
      }
    }
  }

  /** Paths in lexical order. */
  predicate SortedPaths(base: string, scripts: seq<Script>) {
    forall i, j :: 0 <= i < j < |scripts| ==> !StrLess(PathOf(base, scripts[j]), PathOf(base, scripts[i]))
  }

  /** If the scripts later than `current` have names of the same width, sorting the paths puts them in version order,
      whatever the names of the earlier ones. */
  lemma SortedPathsAreOrdered(base: string, scripts: seq<Script>, current: Version)
    requires SortedPaths(base, scripts)
    requires forall a, b | a in scripts && b in scripts ::
               Less(current, VersionOf(a)) && Less(current, VersionOf(b)) ==> SameWidth(a, b)
    ensures OrderedAfter(scripts, current)
  {
    hide PathOf, SameWidth;
    forall i, j | 0 <= i < j < |scripts| && Less(current, VersionOf(scripts[i])) && Less(current, VersionOf(scripts[j]))
      ensures !Less(VersionOf(scripts[j]), VersionOf(scripts[i]))
    {
      PathOrderIsVersionOrder(base, scripts[j], scripts[i]);
    }
  }

  /** The shape of the repository's scripts: major version 0, minor versions and patch numbers of at most two digits. */
  predicate SmallNumbers(scripts: seq<Script>) {
    forall s <- scripts :: s.major == 0 && s.minor < 100 && s.patch < 100
  }

  /** So from any version the runner accepts, sorted paths are in version order, though `0.2` stands behind `0.10`. */
  lemma SupportedVersionsAreOrdered(base: string, scripts: seq<Script>, current: Version)
    requires SortedPaths(base, scripts) && SmallNumbers(scripts) && !Less(current, MINIMUM)
    ensures OrderedAfter(scripts, current)
  {
    forall a, b | a in scripts && b in scripts && Less(current, VersionOf(a)) && Less(current, VersionOf(b))
      ensures SameWidth(a, b)
    {
      TwoDigitMinor(a, current);
      TwoDigitMinor(b, current);
    }
    SortedPathsAreOrdered(base, scripts, current);
  }

  lemma TwoDigitMinor(s: Script, current: Version)
    requires s.major == 0 && s.minor < 100 && !Less(current, MINIMUM) && Less(current, VersionOf(s))
    ensures |Decimal(s.minor)| == 2
  {
    assert s.minor >= 10;
    assert Decimal(s.minor) == Decimal(s.minor / 10) + [Digit(s.minor % 10)];
  }

  // ----- the runner -----

  /** The state a run starts from and leaves: whether the schema exists, the stored schema version (`None` is the
      empty one), and the scripts that took effect, in order. */
  datatype State = State(initialized: bool, schemaVersion: Option<Version>, applied: seq<Script>)

  /** What a run meets: the scripts in path order, the version of this program, the scripts that fail when
      executed, and whether the latest schema and the storing of the version succeed. */
  datatype Run = Run(scripts: seq<Script>, current: Version, failing: set<Script>, latestOk: bool, storeOk: bool)

  predicate IsEmpty(v: Option<Version>) { v.None? || v == Some(DEFAULT_VERSION) }

  function Stored(v: Option<Version>): Version { if v.None? then DEFAULT_VERSION else v.value }

  predicate TooOld(v: Option<Version>) { IsEmpty(v) || Less(v.value, MINIMUM) }

  /** Initialises a new database; an old one must be recent enough. */
  function PreMigrated(st: State, run: Run): (State, Option<string>) {
    if !st.initialized then
      if !run.latestOk then (st, Some("execute latest schema"))
      else if !run.storeOk then (st.(initialized := true), Some("update schema version"))
      else
        var st1 := st.(initialized := true, schemaVersion := Some(run.current));
        (st1, if TooOld(st1.schemaVersion) then Some("installation too old") else None)
    else (st, if TooOld(st.schemaVersion) then Some("installation too old") else None)
  }

  /** The scripts in between, in one transaction; then the version. */
  function MigrationsApplied(st: State, run: Run): (State, Option<string>) {
    var todo := Selected(run.scripts, Stored(st.schemaVersion), run.current);
    if exists s :: s in todo && s in run.failing then (st, Some("execute migration"))
    else
      var st1 := st.(applied := st.applied + todo);
      if !run.storeOk then (st1, Some("update schema version")) else (st1.(schemaVersion := Some(run.current)), None)
  }

  function Migrated(st: State, run: Run): (State, Option<string>) {
    var (st1, err) := PreMigrated(st, run);
    if err.Some? then (st1, err)
    else if !IsEmpty(st1.schemaVersion) && Less(run.current, st1.schemaVersion.value) then
      (st1, Some("cannot downgrade"))
    else if IsEmpty(st1.schemaVersion) || Less(st1.schemaVersion.value, run.current) then MigrationsApplied(st1, run)
    else (st1, None)
  }

  class Database {
    var initialized: bool
    var schemaVersion: Option<Version>
    var applied: seq<Script>

    constructor ()
      ensures Now() == State(false, None, [])
    {
      initialized, schemaVersion, applied := false, None, [];
    }

    ghost function Now(): State
      reads this
    {
      State(initialized, schemaVersion, applied)
    }

    method PreMigrate(run: Run) returns (err: Option<string>)
      modifies this
      ensures (Now(), err) == PreMigrated(old(Now()), run)
    {
      if !initialized {
        if !run.latestOk {
          return Some("execute latest schema");
        }
        initialized := true;
        if !run.storeOk {
          return Some("update schema version");
        }
        schemaVersion := Some(run.current);
      }
      return if TooOld(schemaVersion) then Some("installation too old") else None;
    }

    /** A script that fails rolls back those before it. */
    method ApplyMigrations(run: Run) returns (err: Option<string>)
      modifies this
      ensures (Now(), err) == MigrationsApplied(old(Now()), run)
    {
      ghost var todo := Selected(run.scripts, Stored(schemaVersion), run.current);
      var tx: seq<Script> := [];
      assert run.scripts[0..] == run.scripts;
      for i := 0 to |run.scripts|
        invariant Now() == old(Now())
        invariant tx + Selected(run.scripts[i..], Stored(schemaVersion), run.current) == todo
        invariant forall s <- tx :: s !in run.failing
      {
        SelectedStep(run.scripts[i..], Stored(schemaVersion), run.current);
        assert run.scripts[i..][1..] == run.scripts[i + 1..];
        var script := run.scripts[i];
        if ShouldApply(VersionOf(script), Stored(schemaVersion), run.current) {
          if script in run.failing {
            assert script in todo;
            return Some("execute migration");
          }
          tx := tx + [script];
        }
      }
      assert run.scripts[|run.scripts|..] == [];
      assert tx == todo;
      applied := applied + tx;
      if !run.storeOk {
        return Some("update schema version");
      }
      schemaVersion := Some(run.current);
      return None;
    }

    method Migrate(run: Run) returns (err: Option<string>)
      modifies this
      ensures (Now(), err) == Migrated(old(Now()), run)
    {
      hide MigrationsApplied;
      err := PreMigrate(run);
      if err.Some? {
        return;
      }
      if !IsEmpty(schemaVersion) && Less(run.current, schemaVersion.value) {
        return Some("cannot downgrade");
      }
      if IsEmpty(schemaVersion) || Less(schemaVersion.value, run.current) {
        err := ApplyMigrations(run);
      }
    }
  }

  // ----- what runs leave behind -----

  /** A run that succeeds leaves the version of the program, and migrating again runs nothing. */
  lemma MigratingAgainRunsNothing(st: State, run: Run, again: Run)
    requires Migrated(st, run).1.None? && again.current == run.current
    ensures Migrated(st, run).0.schemaVersion == Some(run.current)
    ensures Migrated(Migrated(st, run).0, again) == (Migrated(st, run).0, None)
  {
    hide MigrationsApplied;
    var (st1, err) := PreMigrated(st, run);
    MigrationsLeaveVersion(st1, run);
  }

  lemma MigrationsLeaveVersion(st: State, run: Run)
    ensures MigrationsApplied(st, run).1.None? ==>
              MigrationsApplied(st, run).0.schemaVersion == Some(run.current) &&
                MigrationsApplied(st, run).0.initialized == st.initialized
  {}

  /** Two upgrades in a row leave the same scripts applied, in the same order, as one upgrade to the second
      version, when the script lists agree, the scripts later than the stored version are in
      order, and the same scripts fail. */
  lemma UpgradesCompose(st: State, first: Run, second: Run)
    requires st.initialized && first.scripts == second.scripts && first.failing == second.failing
    requires OrderedAfter(first.scripts, Stored(st.schemaVersion))
    requires second.storeOk && Migrated(st, first).1.None? && Migrated(Migrated(st, first).0, second).1.None?
    ensures Migrated(st, second) == Migrated(Migrated(st, first).0, second)
  {
    hide Selected, MigrationsApplied;
    var mid := Migrated(st, first).0;
    if Less(st.schemaVersion.value, first.current) {
      MigrationsLeaveVersion(st, first);
      AppliedInTwo(st, first, second);
    }
  }

  lemma AppliedInTwo(st: State, first: Run, second: Run)
    requires first.scripts == second.scripts && first.failing == second.failing
    requires OrderedAfter(first.scripts, Stored(st.schemaVersion))
    requires Between(Stored(st.schemaVersion), first.current, second.current)
    requires MigrationsApplied(st, first).1.None? && second.storeOk
    ensures var mid := MigrationsApplied(st, first).0;
            if first.current == second.current then MigrationsApplied(st, second) == (mid, None)
            else MigrationsApplied(mid, second).1.None? ==>
              MigrationsApplied(st, second) == MigrationsApplied(mid, second)
  {
    hide Selected;
    var v := Stored(st.schemaVersion);
    OrderedComposes(first.scripts, v, first.current, second.current);
    NothingSelected(first.scripts, first.current);
    var a, b := Selected(first.scripts, v, first.current), Selected(first.scripts, first.current, second.current);
    assert st.applied + (a + b) == st.applied + a + b;
    assert forall s <- a + b :: s in a || s in b;
    assert a + [] == a;
  }

  /** For scripts shaped like the repository's, sorted by path, no more is needed: a run refuses versions too old. */
  lemma RepositoryUpgradesCompose(st: State, first: Run, second: Run, base: string)
    requires st.initialized && first.scripts == second.scripts && first.failing == second.failing
    requires SortedPaths(base, first.scripts) && SmallNumbers(first.scripts)
    requires second.storeOk && Migrated(st, first).1.None? && Migrated(Migrated(st, first).0, second).1.None?
    ensures Migrated(st, second) == Migrated(Migrated(st, first).0, second)
  {
    hide MigrationsApplied, SortedPaths, SmallNumbers, OrderedAfter;
    SupportedVersionsAreOrdered(base, first.scripts, Stored(st.schemaVersion));
    UpgradesCompose(st, first, second);
  }

  lemma NothingSelected(scripts: seq<Script>, v: Version)
    ensures Selected(scripts, v, v) == []
  {
    NoneSelected(scripts, v, v);
  }

  /** When the scripts are committed and the version is not stored, the next run applies them a second time. */
  lemma LostVersionRepeatsScripts(st: State, run: Run, again: Run)
    requires st.initialized && !TooOld(st.schemaVersion) && Less(st.schemaVersion.value, run.current)
    requires run.scripts == again.scripts && run.current == again.current && run.failing == again.failing == {}
    requires !run.storeOk && again.storeOk
    ensures var todo := Selected(run.scripts, st.schemaVersion.value, run.current);
            Migrated(Migrated(st, run).0, again) == (State(true, Some(run.current), st.applied + todo + todo), None)
  {
    hide Selected;
  }

  /** A first start that creates the schema and fails to store the version is never repaired: every later start
      reports the installation as too old and changes nothing. */
  lemma {:induction false} FailedFirstStartIsFinal(run: Run, later: seq<Run>)
    requires run.latestOk && !run.storeOk
    ensures AfterRuns(Migrated(State(false, None, []), run).0, later) == State(true, None, [])
    decreases |later|
  {
    var st := State(true, None, []);
    assert PreMigrated(State(false, None, []), run) == (st, Some("update schema version"));
    if later != [] {
      assert PreMigrated(st, later[0]) == (st, Some("installation too old"));
      assert Migrated(st, later[0]) == (st, Some("installation too old"));
      FailedFirstStartIsFinal(run, later[1..]);
    }
  }

  function AfterRuns(st: State, runs: seq<Run>): State
    decreases |runs|
  {
    if runs == [] then st else AfterRuns(Migrated(st, runs[0]).0, runs[1..])
  }

  /** A first start on an empty database takes the latest schema and stores the version of the program, so that no
      script runs then or later for that version; when the schema fails nothing is left. */
  lemma FirstStart(run: Run, again: Run)
    requires !Less(run.current, Version(0, 22, 0)) && again.current == run.current
    ensures run.latestOk && run.storeOk ==>
              Migrated(State(false, None, []), run) == (State(true, Some(run.current), []), None) &&
              Migrated(State(true, Some(run.current), []), again) == (State(true, Some(run.current), []), None)
    ensures !run.latestOk ==> Migrated(State(false, None, []), run).0 == State(false, None, []) &&
                              Migrated(State(false, None, []), run).1.Some?
  {
    hide MigrationsApplied;
  }

  /** What a run on an existing database does: it refuses a version that is missing or before 0.22.0 and a version after
      its own, and then changes nothing; it does nothing on its own version; and on an earlier one it applies, in their
      order, exactly the scripts that lead to a later version up to its own, or none of them when one fails. */
  lemma RunOnExisting(st: State, run: Run)
    requires st.initialized
    ensures var (end, err) := Migrated(st, run);
            if st.schemaVersion.None? || Less(st.schemaVersion.value, Version(0, 22, 0)) ||
               Less(run.current, st.schemaVersion.value) then err.Some? && end == st
            else if run.current == st.schemaVersion.value then err.None? && end == st
            else
              var todo := Selected(run.scripts, st.schemaVersion.value, run.current);
              if exists s :: s in todo && s in run.failing then err.Some? && end == st
              else
                end == State(true, if run.storeOk then Some(run.current) else st.schemaVersion, st.applied + todo) &&
                (err.None? <==> run.storeOk)
  {
    hide Selected;
    if st.schemaVersion.Some? { LessTotal(st.schemaVersion.value, run.current); }
  }

  lemma LessTotal(a: Version, b: Version)
    ensures a == b || Less(a, b) || Less(b, a)
    ensures !(Less(a, b) && Less(b, a)) && !Less(a, a)
  {}

  /** Versions are compared number by number, and a script `NN` leads to patch `NN + 1` of its directory's version. */
  lemma SelectedIff(scripts: seq<Script>, current: Version, target: Version, s: Script)
    ensures s in Selected(scripts, current, target) <==>
            s in scripts &&
            (current.major < s.major || (current.major == s.major &&
             (current.minor < s.minor || (current.minor == s.minor && current.patch <= s.patch)))) &&
            (s.major < target.major || (s.major == target.major &&
             (s.minor < target.minor || (s.minor == target.minor && s.patch < target.patch))))
  {
    hide Selected;
  }

  /** The scripts selected keep their order. */
  lemma {:induction false} SelectedInOrder(a: seq<Script>, b: seq<Script>, current: Version, target: Version)
    ensures Selected(a + b, current, target) == Selected(a, current, target) + Selected(b, current, target)
  {
    hide ShouldApply;
    if a == [] {
      assert a + b == b;
    } else {
      assert (a + b)[0] == a[0] && (a + b)[1..] == a[1..] + b;
      SelectedInOrder(a[1..], b, current, target);
    }
  }
}
