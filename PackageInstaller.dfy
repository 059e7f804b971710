/**
 * The bundle selector and installer of scripts/smart_installer.py (class
 * PackageInstaller): scoring a directory name against the fingerprint,
 * finding the candidate directories by glob patterns, deciding the pip
 * command line, aggregating the import checks, and the choice of a candidate
 * in the interactive and automatic modes. Directory listings, existence tests,
 * the import machinery and the user's answers are passed in as values.
 */
module PackageInstaller {
  import opened Wrappers
  import opened PyText
  import opened EnvironmentDetector

  // ------------------------------------------------------------ scoring

  /** The interpreter token of the directory names, e.g. "py311". */
  function PyToken(env: Fingerprint): string {
    "py" + CompactVersion(env)
  }

  /**
   * calculate_match_score: case-insensitive substring tests on the directory
   * name, worth 10 for the system, 20 for "py<version>", 15 for the platform
   * tag and 5 for the machine.
   */
  function MatchScore(env: Fingerprint, dirname: string): (score: nat)
    ensures score <= 50 && score % 5 == 0
  {
    var lower := Lower(dirname);
    (if Contains(lower, env.system) then 10 else 0)
    + (if Contains(lower, PyToken(env)) then 20 else 0)
    + (if Contains(lower, env.platformTag) then 15 else 0)
    + (if Contains(lower, env.machine) then 5 else 0)
  }

  /** The greatest score, 50, is reached exactly when all four signals occur. */
  lemma ScoreIsFiftyIffAllSignals(env: Fingerprint, dirname: string)
    ensures MatchScore(env, dirname) == 50 <==>
              && Contains(Lower(dirname), env.system)
              && Contains(Lower(dirname), PyToken(env))
              && Contains(Lower(dirname), env.platformTag)
              && Contains(Lower(dirname), env.machine)
  {
  }

  /** The score depends only on the lower-cased name. */
  lemma ScoreIgnoresCase(env: Fingerprint, dirname: string)
    ensures MatchScore(env, Lower(dirname)) == MatchScore(env, dirname)
  {
    LowerIdempotent(dirname);
  }

  /** A name that contains another (ignoring case) scores at least as much. */
  lemma ScoreMonotone(env: Fingerprint, inner: string, outer: string)
    requires Contains(Lower(outer), Lower(inner))
    ensures MatchScore(env, inner) <= MatchScore(env, outer)
  {
    var lin, lout := Lower(inner), Lower(outer);
    if Contains(lin, env.system) { ContainsTransitive(env.system, lin, lout); }
    if Contains(lin, PyToken(env)) { ContainsTransitive(PyToken(env), lin, lout); }
    if Contains(lin, env.platformTag) { ContainsTransitive(env.platformTag, lin, lout); }
    if Contains(lin, env.machine) { ContainsTransitive(env.machine, lin, lout); }
  }

  /** A CPython 3.11 host on 64-bit Linux. */
  const LinuxPy311 := Fingerprint("linux", "x86_64", "3.11", "linux_x86_64")

  lemma PyTokenOfLinuxPy311()
    ensures PyToken(LinuxPy311) == "py311"
  {
    assert LinuxPy311.pythonVersion == "3" + "." + "11";
    CompactOfDotted("3", "11");
  }

  /** Where the four signals occur in the worked example's name. */
  lemma FullyTaggedNameSignals()
    ensures Contains("mypkg_linux_x86_64_py311", "linux")
    ensures Contains("mypkg_linux_x86_64_py311", "py311")
    ensures Contains("mypkg_linux_x86_64_py311", "linux_x86_64")
    ensures Contains("mypkg_linux_x86_64_py311", "x86_64")
  {
    SignalAt("linux", 6);
    SignalAt("linux_x86_64", 6);
    SignalAt("x86_64", 12);
    SignalAt("py311", 19);
  }

  lemma SignalAt(signal: string, i: nat)
    requires i + |signal| <= 24 && "mypkg_linux_x86_64_py311"[i..i + |signal|] == signal
    ensures Contains("mypkg_linux_x86_64_py311", signal)
  {
    ContainsAt("mypkg_linux_x86_64_py311", signal, i);
  }

  /** Every signal occurring in a name without capitals gives the full score. */
  lemma ScoreOfLowerCaseName(env: Fingerprint, name: string)
    requires IsLower(name)
    requires Contains(name, env.system) && Contains(name, PyToken(env))
    requires Contains(name, env.platformTag) && Contains(name, env.machine)
    ensures MatchScore(env, name) == 50
  {
    LowerOfLower(name);
  }

  /** The worked example: a name carrying all four signals scores 10 + 20 + 15 + 5. */
  lemma ScoreOfFullyTaggedName()
    ensures MatchScore(LinuxPy311, "mypkg_linux_x86_64_py311") == 50
  {
    PyTokenOfLinuxPy311();
    FullyTaggedNameSignals();
    FullyTaggedNameIsLower();
    ScoreOfLowerCaseName(LinuxPy311, "mypkg_linux_x86_64_py311");
  }

  lemma FullyTaggedNameIsLower()
    ensures IsLower("mypkg_linux_x86_64_py311")
  {
  }

  // ----------------------------------------------------- glob patterns

  /**
   * A glob over one directory: `*a*` is Anywhere(a), `*a*b*` is Around(a, b)
   * and `*s` is EndingWith(s).
   */
  datatype Pattern = Anywhere(part: string) | Around(first: string, second: string) | EndingWith(suffix: string)

  predicate Matches(p: Pattern, name: string) {
    match p
    case Anywhere(a) => Contains(name, a)
    case Around(a, b) => ContainsThen(name, a, b)
    case EndingWith(s) => EndsWith(name, s)
  }

  /** The four patterns of find_matching_packages, in order. */
  function Patterns(env: Fingerprint): (ps: seq<Pattern>)
    ensures |ps| == 4
  {
    [ Around(env.system, PyToken(env)),
      Anywhere(env.platformTag),
      Anywhere("python" + env.pythonVersion),
      Anywhere(PyToken(env)) ]
  }

  predicate MatchesAny(env: Fingerprint, name: string) {
    exists k :: 0 <= k < |Patterns(env)| && Matches(Patterns(env)[k], name)
  }

  /**
   * The first pattern never adds a directory: whatever matches
   * `*<system>*py<ver>*` also matches `*py<ver>*`.
   */
  lemma FirstPatternSubsumed(env: Fingerprint, name: string)
    ensures MatchesAny(env, name) <==>
              || Contains(name, env.platformTag)
              || Contains(name, "python" + env.pythonVersion)
              || Contains(name, PyToken(env))
  {
    var ps := Patterns(env);
    if Matches(ps[0], name) {
      ContainsThenBoth(name, env.system, PyToken(env));
      assert Matches(ps[3], name);
    }
    if Contains(name, env.platformTag) {
      assert Matches(ps[1], name);
    }
    if Contains(name, "python" + env.pythonVersion) {
      assert Matches(ps[2], name);
    }
    if Contains(name, PyToken(env)) {
      assert Matches(ps[3], name);
    }
  }

  /** `Path.glob(pattern)` over a listing: the matching entries, in listing order. */
  method Glob(p: Pattern, listing: seq<string>) returns (matches: seq<string>)
    ensures forall d :: d in matches <==> d in listing && Matches(p, d)
  {
    matches := [];
    for i := 0 to |listing|
      invariant forall d :: d in matches <==> d in listing[..i] && Matches(p, d)
    {
      if Matches(p, listing[i]) {
        matches := matches + [listing[i]];
      }
    }
    assert listing[..|listing|] == listing;
  }

  // ------------------------------------------------ candidate selection

  predicate NoDuplicates(s: seq<string>) {
    forall i, j :: 0 <= i < j < |s| ==> s[i] != s[j]
  }

  /** Non-decreasing by score, the order `sort(key=calculate_match_score)` leaves. */
  predicate SortedByScore(env: Fingerprint, s: seq<string>) {
    forall i, j :: 0 <= i < j < |s| ==> MatchScore(env, s[i]) <= MatchScore(env, s[j])
  }

  /** `list(s)` for a set: every member once, in an order nobody promises. */
  method ListOfSet(s: set<string>) returns (xs: seq<string>)
    ensures NoDuplicates(xs)
    ensures forall x :: x in xs <==> x in s
  {
    xs := [];
    var rest := s;
    while rest != {}
      invariant rest <= s
      invariant forall x :: x in xs <==> x in s && x !in rest
      invariant NoDuplicates(xs)
      decreases rest
    {
      var x :| x in rest;
      xs := xs + [x];
      rest := rest - {x};
    }
  }

  /** Non-decreasing under a key function. */
  predicate SortedBy(s: seq<string>, key: string -> nat) {
    forall i, j :: 0 <= i < j < |s| ==> key(s[i]) <= key(s[j])
  }

  /** Where the elements of `ys[..p] + [x] + ys[p..]` come from. */
  lemma InsertIndices(ys: seq<string>, p: nat, x: string)
    requires p <= |ys|
    ensures |ys[..p] + [x] + ys[p..]| == |ys| + 1
    ensures forall k :: 0 <= k < p ==> (ys[..p] + [x] + ys[p..])[k] == ys[k]
    ensures (ys[..p] + [x] + ys[p..])[p] == x
    ensures forall k :: p < k <= |ys| ==> (ys[..p] + [x] + ys[p..])[k] == ys[k - 1]
    ensures forall d :: d in ys[..p] + [x] + ys[p..] <==> d in ys || d == x
  {
    assert ys == ys[..p] + ys[p..];
  }

  /** Putting `x` after every element whose key is not greater keeps the order. */
  lemma InsertKeepsSorted(ys: seq<string>, key: string -> nat, p: nat, x: string)
    requires SortedBy(ys, key)
    requires p <= |ys|
    requires forall k :: 0 <= k < p ==> key(ys[k]) <= key(x)
    requires p < |ys| ==> key(x) < key(ys[p])
    ensures SortedBy(ys[..p] + [x] + ys[p..], key)
  {
    var zs := ys[..p] + [x] + ys[p..];
    InsertIndices(ys, p, x);
    forall i, j | 0 <= i < j < |zs|
      ensures key(zs[i]) <= key(zs[j])
    {
      if i == p {
        assert key(ys[p]) <= key(ys[j - 1]);
      }
    }
  }

  /** Inserting a new name keeps a list free of duplicates. */
  lemma InsertKeepsDistinct(ys: seq<string>, p: nat, x: string)
    requires NoDuplicates(ys) && x !in ys
    requires p <= |ys|
    ensures NoDuplicates(ys[..p] + [x] + ys[p..])
  {
    var zs := ys[..p] + [x] + ys[p..];
    InsertIndices(ys, p, x);
    forall i, j | 0 <= i < j < |zs|
      ensures zs[i] != zs[j]
    {
      if i == p {
        assert zs[j] == ys[j - 1];
      } else if j == p {
        assert zs[i] == ys[i];
      }
    }
  }

  /**
   * `list.sort(key=...)` on a duplicate-free list: a rearrangement of the same
   * names, non-decreasing by key. Each name goes after every name whose key is
   * not greater, so ties keep their incoming order, as in Python's stable sort.
   */
  method SortByKey(xs: seq<string>, key: string -> nat) returns (ys: seq<string>)
    requires NoDuplicates(xs)
    ensures |ys| == |xs| && NoDuplicates(ys)
    ensures forall d :: d in ys <==> d in xs
    ensures SortedBy(ys, key)
  {
    ys := [];
    for i := 0 to |xs|
      invariant |ys| == i && NoDuplicates(ys)
      invariant forall d :: d in ys <==> d in xs[..i]
      invariant SortedBy(ys, key)
    {
      var x := xs[i];
      var p := 0;
      while p < |ys| && key(ys[p]) <= key(x)
        invariant 0 <= p <= |ys|
        invariant forall k :: 0 <= k < p ==> key(ys[k]) <= key(x)
      {
        p := p + 1;
      }
      assert x !in xs[..i];
      InsertIndices(ys, p, x);
      InsertKeepsSorted(ys, key, p, x);
      InsertKeepsDistinct(ys, p, x);
      ys := ys[..p] + [x] + ys[p..];
      assert xs[..i + 1] == xs[..i] + [x];
    }
    assert xs[..|xs|] == xs;
  }

  /**
   * find_matching_packages: the entries of the packages directory that match
   * at least one of the four patterns, each once, ordered by ascending score.
   */
  method FindMatchingPackages(env: Fingerprint, listing: seq<string>) returns (dirs: seq<string>)
    ensures NoDuplicates(dirs)
    ensures forall d :: d in dirs <==> d in listing && MatchesAny(env, d)
    ensures SortedByScore(env, dirs)
  {
    var patterns := Patterns(env);
    var matching: seq<string> := [];
    for k := 0 to |patterns|
      invariant forall d :: d in matching <==>
                  d in listing && exists j :: 0 <= j < k && Matches(patterns[j], d)
    {
      var found := Glob(patterns[k], listing);
      matching := matching + found;
    }
    var unique := ListOfSet(set d | d in matching);
    dirs := SortByKey(unique, d => MatchScore(env, d));
  }

  /**
   * Auto mode as written: the first directory of the ascending list, which is
   * a lowest-scoring candidate; None when nothing matched.
   */
  function AutoCandidate(dirs: seq<string>): (choice: Option<string>)
    ensures choice.None? <==> dirs == []
    ensures choice.Some? ==> choice.value in dirs && choice.value == dirs[0]
  {
    if dirs == [] then None else Some(dirs[0])
  }

  lemma AutoCandidateScoresLowest(env: Fingerprint, dirs: seq<string>, d: string)
    requires SortedByScore(env, dirs) && d in dirs
    ensures MatchScore(env, AutoCandidate(dirs).value) <= MatchScore(env, d)
  {
  }

  /**
   * Best-first selection, what the automatic mode is meant to do: the last
   * directory of the ascending list, which no candidate outscores.
   */
  function BestCandidate(env: Fingerprint, dirs: seq<string>): (choice: Option<string>)
    requires SortedByScore(env, dirs)
    ensures choice.None? <==> dirs == []
    ensures choice.Some? ==> choice.value in dirs
    ensures choice.Some? ==> forall d :: d in dirs ==> MatchScore(env, d) <= MatchScore(env, choice.value)
  {
    if dirs == [] then None else Some(dirs[|dirs| - 1])
  }

  /** A name without capitals holding the interpreter token and no other signal scores 20. */
  lemma ScoreOfTokenOnlyName(env: Fingerprint, name: string)
    requires IsLower(name)
    requires !Contains(name, env.system) && Contains(name, PyToken(env))
    requires !Contains(name, env.platformTag) && !Contains(name, env.machine)
    ensures MatchScore(env, name) == 20
  {
    LowerOfLower(name);
  }

  /** A bare "py311" name scores only for the interpreter token on the Linux CPython 3.11 host. */
  lemma ScoreOfBareToken()
    ensures MatchScore(LinuxPy311, "py311") == 20
  {
    var bare := "py311";
    PyTokenOfLinuxPy311();
    ContainsAt(bare, bare, 0);
    assert !Contains(bare, "linux") by {
      forall i | 0 <= i <= |bare| ensures !OccursAt(bare, "linux", i) {
        if i == 0 { assert bare[0..5][0] != "linux"[0]; }
      }
    }
    ScoreOfTokenOnlyName(LinuxPy311, bare);
  }

  /** Both bundles of the example match the fourth pattern, `*py311*`. */
  lemma ExampleBundlesMatch()
    ensures MatchesAny(LinuxPy311, "py311") && MatchesAny(LinuxPy311, "mypkg_linux_x86_64_py311")
  {
    PyTokenOfLinuxPy311();
    ContainsAt("py311", "py311", 0);
    ContainsAt("mypkg_linux_x86_64_py311", "py311", 19);
    assert Matches(Patterns(LinuxPy311)[3], "py311");
    assert Matches(Patterns(LinuxPy311)[3], "mypkg_linux_x86_64_py311");
  }

  /** Of two candidates with different scores, the ascending list starts with the weaker one. */
  lemma AscendingPutsWeakerFirst(env: Fingerprint, dirs: seq<string>, weaker: string, stronger: string)
    requires SortedByScore(env, dirs)
    requires forall d :: d in dirs <==> d == weaker || d == stronger
    requires MatchScore(env, weaker) < MatchScore(env, stronger)
    ensures AutoCandidate(dirs) == Some(weaker)
    ensures BestCandidate(env, dirs) == Some(stronger)
  {
    assert weaker in dirs && stronger in dirs;
    var i :| 0 <= i < |dirs| && dirs[i] == stronger;
    var j :| 0 <= j < |dirs| && dirs[j] == weaker;
    assert dirs[0] in dirs && dirs[|dirs| - 1] in dirs;
    if dirs[|dirs| - 1] == weaker {
      assert MatchScore(env, dirs[i]) > MatchScore(env, dirs[|dirs| - 1]);
    }
  }

  /** When both entries of a two-entry listing match, the result holds exactly those two. */
  lemma BothEntriesFound(env: Fingerprint, dirs: seq<string>, a: string, b: string)
    requires MatchesAny(env, a) && MatchesAny(env, b)
    requires forall d :: d in dirs <==> d in [a, b] && MatchesAny(env, d)
    ensures forall d :: d in dirs <==> d == a || d == b
  {
  }

  /**
   * With a fully tagged bundle and a bare "py311" bundle on a Linux CPython 3.11
   * host, every result find_matching_packages may return puts "py311" first, so
   * the automatic mode installs the bundle with score 20 rather than the one
   * with score 50, which BestCandidate chooses.
   */
  lemma AutoModeInstallsWorstMatch(dirs: seq<string>)
    requires NoDuplicates(dirs) && SortedByScore(LinuxPy311, dirs)
    requires forall d :: d in dirs <==> d in ["mypkg_linux_x86_64_py311", "py311"] && MatchesAny(LinuxPy311, d)
    ensures AutoCandidate(dirs) == Some("py311")
    ensures BestCandidate(LinuxPy311, dirs) == Some("mypkg_linux_x86_64_py311")
    ensures MatchScore(LinuxPy311, "py311") < MatchScore(LinuxPy311, "mypkg_linux_x86_64_py311")
  {
    ScoreOfFullyTaggedName();
    ScoreOfBareToken();
    ExampleBundlesMatch();
    BothEntriesFound(LinuxPy311, dirs, "mypkg_linux_x86_64_py311", "py311");
    AscendingPutsWeakerFirst(LinuxPy311, dirs, "py311", "mypkg_linux_x86_64_py311");
  }

  // ------------------------------------------------ install command line

  /** The two FileNotFoundError cases of install_from_directory. */
  datatype InstallError = DirectoryNotFound | NoWheelFiles

  const RequirementsFile := "requirements_locked.txt"

  function RequirementsPath(dir: string): string {
    dir + "/" + RequirementsFile
  }

  /** `python -m pip install --no-index --find-links <dir>`: offline, the directory as the only source. */
  function BaseCommand(python: string, dir: string): (cmd: seq<string>)
    ensures |cmd| == 7 && cmd[3] == "install" && cmd[4] == "--no-index" && cmd[5] == "--find-links"
  {
    [python, "-m", "pip", "install", "--no-index", "--find-links", dir]
  }

  const WheelGlob := EndingWith(".whl")

  /** `wheel.name.split("-")[0]`: the distribution name of a wheel file. */
  function DistributionName(wheel: string): (name: string)
    ensures '-' !in name
    ensures StartsWith(wheel, name)
    ensures |name| < |wheel| ==> wheel[|name|] == '-'
  {
    Before(wheel, '-')
  }

  /** `if packages:`, which treats an empty list like None. */
  predicate WantsPackages(packages: Option<seq<string>>) {
    packages.Some? && packages.value != []
  }

  /**
   * install_from_directory up to the pip call: fails when the directory is
   * missing or holds no `*.whl` entry; otherwise the offline pip command
   * followed by the explicit packages, else `-r requirements_locked.txt` when
   * that file exists, else every distinct distribution name of the wheels.
   */
  method InstallCommand(python: string, dir: string, dirExists: bool, entries: seq<string>,
                        requirementsExists: bool, packages: Option<seq<string>>)
    returns (r: Result<seq<string>, InstallError>)
    ensures r == Failure(DirectoryNotFound) <==> !dirExists
    ensures r == Failure(NoWheelFiles) <==> dirExists && forall e :: e in entries ==> !Matches(WheelGlob, e)
    ensures r.Success? ==> |r.value| >= 7 && r.value[..7] == BaseCommand(python, dir)
    ensures r.Success? && WantsPackages(packages) ==> r.value[7..] == packages.value
    ensures r.Success? && !WantsPackages(packages) && requirementsExists ==>
              r.value[7..] == ["-r", RequirementsPath(dir)]
    ensures r.Success? && !WantsPackages(packages) && !requirementsExists ==>
              && NoDuplicates(r.value[7..])
              && forall n :: n in r.value[7..] <==>
                   exists w :: w in entries && Matches(WheelGlob, w) && DistributionName(w) == n
  {
    if !dirExists {
      return Failure(DirectoryNotFound);
    }
    var wheels := Glob(WheelGlob, entries);
    if wheels == [] {
      return Failure(NoWheelFiles);
    }
    assert wheels[0] in entries;
    var cmd := BaseCommand(python, dir);
    if packages.Some? && packages.value != [] {
      cmd := cmd + packages.value;
    } else if requirementsExists {
      cmd := cmd + ["-r", RequirementsPath(dir)];
    } else {
      var names: set<string> := {};
      for i := 0 to |wheels|
        invariant forall n :: n in names <==> exists j :: 0 <= j < i && DistributionName(wheels[j]) == n
      {
        names := names + {DistributionName(wheels[i])};
      }
      var nameList := ListOfSet(names);
      cmd := cmd + nameList;
      assert cmd[7..] == nameList;
      forall n ensures n in nameList <==>
          exists w :: w in entries && Matches(WheelGlob, w) && DistributionName(w) == n
      {
        if n in nameList {
          var j :| 0 <= j < |wheels| && DistributionName(wheels[j]) == n;
          assert wheels[j] in wheels;
        }
        if exists w :: w in entries && Matches(WheelGlob, w) && DistributionName(w) == n {
          var w :| w in entries && Matches(WheelGlob, w) && DistributionName(w) == n;
          assert w in wheels;
          var j :| 0 <= j < |wheels| && wheels[j] == w;
        }
      }
    }
    r := Success(cmd);
  }

  // -------------------------------------------------- verification

  /** The packages whose import fails, in input order. */
  function FailedImports(packages: seq<string>, imports: string -> bool): (failed: seq<string>)
    ensures |failed| <= |packages|
  {
    if packages == [] then []
    else (if imports(packages[0]) then [] else [packages[0]]) + FailedImports(packages[1..], imports)
  }

  /** A package is reported failed exactly when it was asked for and does not import. */
  lemma {:induction false} FailedImportsMembers(packages: seq<string>, imports: string -> bool)
    ensures forall p :: p in FailedImports(packages, imports) <==> p in packages && !imports(p)
  {
    if packages != [] {
      FailedImportsMembers(packages[1..], imports);
      assert packages == [packages[0]] + packages[1..];
    }
  }

  /** Checking one more package extends the failures by at most that package. */
  lemma {:induction false} FailedImportsSnoc(packages: seq<string>, p: string, imports: string -> bool)
    ensures FailedImports(packages + [p], imports)
         == FailedImports(packages, imports) + (if imports(p) then [] else [p])
  {
    if packages == [] {
      assert packages + [p] == [p];
    } else {
      assert (packages + [p])[1..] == packages[1..] + [p];
      FailedImportsSnoc(packages[1..], p, imports);
    }
  }

  /**
   * verify_installation: tries each import in turn and collects the names
   * that fail; the result is true exactly when nothing failed.
   */
  method VerifyInstallation(packages: seq<string>, imports: string -> bool)
    returns (allImported: bool, failed: seq<string>)
    ensures failed == FailedImports(packages, imports)
    ensures allImported <==> failed == []
    ensures allImported <==> forall p :: p in packages ==> imports(p)
  {
    failed := [];
    for i := 0 to |packages|
      invariant failed == FailedImports(packages[..i], imports)
    {
      FailedImportsSnoc(packages[..i], packages[i], imports);
      assert packages[..i + 1] == packages[..i] + [packages[i]];
      if !imports(packages[i]) {
        failed := failed + [packages[i]];
      }
    }
    assert packages[..|packages|] == packages;
    FailedImportsMembers(packages, imports);
    allImported := failed == [];
    if !allImported {
      assert failed[0] in failed;
    }
  }

  // ------------------------------------------- interactive selection

  const MaxShown := 5

  function Min(a: int, b: int): int {
    if a <= b then a else b
  }

  /** The menu check: `int(choice) - 1` is accepted when it indexes one of the shown candidates. */
  function ChoiceIndex(choice: int, candidates: nat): (index: Option<nat>)
    ensures index.Some? <==> 1 <= choice <= MaxShown && choice <= candidates
    ensures index.Some? ==> index.value + 1 == choice
    ensures index.Some? ==> index.value < candidates && index.value < MaxShown
  {
    var i := choice - 1;
    if 0 <= i < Min(MaxShown, candidates) then Some(i) else None
  }

  /** One answer to the menu prompt: a number, text `int()` rejects, or Ctrl-C. */
  datatype Answer = Number(n: int) | NotANumber | Interrupted

  /** How the prompt loop ends; NoMoreInput stands for end of input, whose EOFError is not caught. */
  datatype Selection = Chosen(index: nat) | Cancelled | NoMoreInput

  /** An answer that only re-prompts: a number outside the menu. */
  predicate Rejected(answer: Answer, candidates: nat) {
    answer.Number? && ChoiceIndex(answer.n, candidates).None?
  }

  predicate AllRejected(answers: seq<Answer>, candidates: nat) {
    forall k :: 0 <= k < |answers| ==> Rejected(answers[k], candidates)
  }

  /**
   * The `while True` loop of interactive_install: the first answer that is not
   * an out-of-range number decides; a valid number selects, anything else cancels.
   */
  method PromptForCandidate(candidates: nat, answers: seq<Answer>) returns (sel: Selection)
    ensures sel.Chosen? ==> sel.index < candidates && sel.index < MaxShown
    ensures sel.Chosen? ==> exists j :: 0 <= j < |answers| && AllRejected(answers[..j], candidates)
                                        && answers[j] == Number(sel.index + 1)
    ensures sel.Cancelled? <==> exists j :: 0 <= j < |answers| && AllRejected(answers[..j], candidates)
                                           && !answers[j].Number?
    ensures sel.NoMoreInput? <==> AllRejected(answers, candidates)
  {
    var i := 0;
    while i < |answers|
      invariant 0 <= i <= |answers|
      invariant AllRejected(answers[..i], candidates)
      decreases |answers| - i
    {
      if !answers[i].Number? {
        DecidingAnswerIsFirst(answers, candidates, i);
        return Cancelled;
      }
      var index := ChoiceIndex(answers[i].n, candidates);
      if index.Some? {
        DecidingAnswerIsFirst(answers, candidates, i);
        return Chosen(index.value);
      }
      assert answers[..i + 1] == answers[..i] + [answers[i]];
      i := i + 1;
    }
    assert answers[..i] == answers;
    sel := NoMoreInput;
    forall j | 0 <= j < |answers| && AllRejected(answers[..j], candidates)
      ensures Rejected(answers[j], candidates)
    {
    }
  }

  /** Only the first answer that is not rejected can decide the prompt. */
  lemma DecidingAnswerIsFirst(answers: seq<Answer>, candidates: nat, i: nat)
    requires i < |answers| && AllRejected(answers[..i], candidates)
    requires !Rejected(answers[i], candidates)
    ensures forall j :: (0 <= j < |answers| && AllRejected(answers[..j], candidates)
                         && !Rejected(answers[j], candidates)) ==> j == i
    ensures !AllRejected(answers, candidates)
  {
  }

  /**
   * The package prompt: a blank answer means None (install everything);
   * otherwise the whitespace-separated names, never an empty list.
   */
  function PackagesFromAnswer(text: string): (packages: Option<seq<string>>)
    ensures packages.None? <==> IsBlank(text)
    ensures packages.Some? ==> WantsPackages(packages) && packages.value == Tokens(text)
  {
    TokensEmptyIffBlank(text);
    if IsBlank(text) then None else Some(Tokens(text))
  }
}
