# Offline package installer: decision logic, verified

A Dafny model of the decision logic in `scripts/smart_installer.py`, a script
that fingerprints the running Python environment and installs a matching
bundle of pre-downloaded wheels offline with `pip install --no-index
--find-links <dir>`.

The model covers these parts of the script:

- **Environment fingerprint.** This is class `EnvironmentDetector`, in
  `EnvironmentDetector.dfy`. It covers:
  - the platform-tag table;
  - the virtual-environment classifier;
  - parsing of `pip --version` output;
  - lower-casing of the host names and the `major.minor` version string.
- **Bundle selector and installer.** This is class `PackageInstaller`, in
  `PackageInstaller.dfy`. It covers:
  - the directory-name scorer;
  - the four glob patterns and the candidate list (deduplicated through `set`,
    sorted ascending by score);
  - the pip command line, with its two `FileNotFoundError` cases;
  - aggregation of the import checks;
  - the menu-index check and prompt loop of the interactive mode;
  - the candidate taken by `--auto`.
- **Python string operations.** `PyText.dfy` spells out the Python string
  operations that the logic depends on: `lower()`, `in` on strings, `split()`,
  `split("-")[0]`, `replace(".", "")`, `startswith` and `endswith`.
- **Option and Result.** `Wrappers.dfy` holds the two small datatypes used for
  `None` and for raised errors.

Host queries are parameters of the model:

- `platform.system()`, `platform.machine()` and `sys.version_info`;
- the `sys` prefixes and `os.environ`;
- the outcome of running pip.

Filesystem results are parameters too: directory listings as sequences of
names, and `exists()` as booleans. The import machinery is an oracle
`string -> bool`. The user's answers are data.

Nothing in the source object changes after construction. The environment
record is therefore a datatype, not a class. Some operations build a local
result step by step, so they are methods:

- `detect_virtual_env` fills in its record by successive updates, with no
  loop.
- `find_matching_packages`, `install_from_directory`, `verify_installation`
  and the interactive prompt loop use loops with invariants.

Each method is proved against the functions and predicates that state what
the source promises.

Three behaviours of the code are worth noting:

- An interpreter counts as isolated when `sys.real_prefix` exists, even if
  its base prefix equals its prefix.
- Candidates are deduplicated by `set` on the names as listed. Two names for
  the same directory both stay.
- The order among equal scores comes from `set` iteration, so it is
  unspecified. It is not the order in which the patterns found the names.

## Model

| member | source | states |
|---|---|---|
| EnvironmentDetector.PlatformTag | scripts/smart_installer.py:26-43 | The result is one of the seven tags. For each tag, exactly which (system, machine) pairs produce it. Windows always gives win_amd64 or win32. Any other system, or a linux/darwin machine outside the table, gives unknown. |
| EnvironmentDetector.ArmPrefixVersusExactAarch64 | scripts/smart_installer.py:36-37 | On linux, any machine starting with "arm" maps to linux_aarch64. "aarch64" matches only exactly: "aarch64_be" gives unknown. |
| EnvironmentDetector.DetectVirtualEnv | scripts/smart_installer.py:45-72 | in_venv holds iff real_prefix exists or base_prefix differs from prefix, and then a type is set. The type follows the priority conda > VIRTUAL_ENV > real_prefix > venv, each as an iff. The path is CONDA_PREFIX (possibly None), the VIRTUAL_ENV value, or sys.prefix. Outside a venv, type and path are None. |
| EnvironmentDetector.PipVersion | scripts/smart_installer.py:89-98 | The result is never empty and holds no whitespace. It is "unknown" when pip could not start, exited non-zero, or printed fewer than two words. Otherwise it is the second word of the output. |
| EnvironmentDetector.PipVersionOfBanner | scripts/smart_installer.py:94-95 | For output "<blank><word><blank><version><rest>", with a non-empty separating blank and rest empty or starting with whitespace, the result is <version>. |
| EnvironmentDetector.PipVersionOfSingleWord | scripts/smart_installer.py:94-98 | A successful run that prints a single word, with any whitespace around it (such as "pip\n"), gives "unknown". This is the IndexError that the bare except swallows. |
| EnvironmentDetector.PipVersionOfBlankOutput | scripts/smart_installer.py:94-98 | A successful run with blank output gives "unknown", the other IndexError case. |
| EnvironmentDetector.CompactOfDotted | scripts/smart_installer.py:142 | Removing the dot from "<digits>.<digits>" joins the two digit runs. |
| EnvironmentDetector.Detect | scripts/smart_installer.py:20-24 | System and machine are the lower-cased host names. The version is str(major) + "." + str(minor), and its dot-free form is str(major) + str(minor). The tag is one of the seven and agrees with the table. |
| EnvironmentDetector.DetectIgnoresCase | scripts/smart_installer.py:21-22 | Upper-case host names give the same fingerprint as their lower-case forms. |
| PyText.Lower | scripts/smart_installer.py:135 | Keeps the length, maps each character through ASCII lower-casing, and leaves no capital. |
| PyText.Tokens | scripts/smart_installer.py:95 | Every token of `split()` is non-empty and holds no whitespace. |
| PyText.TokensOfLeadWord | scripts/smart_installer.py:95 | After leading whitespace, a maximal non-whitespace run is the first token, and splitting goes on after it. Together with TokensEmptyIffBlank this fixes `split()` on every text. |
| PyText.TokensEmptyIffBlank | scripts/smart_installer.py:268-269 | `split()` returns no token exactly when the text is only whitespace. |
| PyText.Without | scripts/smart_installer.py:142 | `replace(".", "")` leaves no dot, never lengthens the text, and leaves a text without dots unchanged. |
| PyText.WithoutAppend | scripts/smart_installer.py:142 | Removal works piece by piece: the result for a concatenation is the concatenation of the results. |
| PyText.WithoutSingle | scripts/smart_installer.py:142 | A single character is dropped when it is the removed one and kept otherwise. With WithoutAppend this fixes the result on every text. |
| PyText.Before | scripts/smart_installer.py:185 | `split("-")[0]` is the prefix before the first "-", or the whole name when there is none. |
| PackageInstaller.MatchScore | scripts/smart_installer.py:132-154 | The score is a multiple of 5 between 0 and 50. Its meaning is stated by the lemmas below. |
| PackageInstaller.ScoreIsFiftyIffAllSignals | scripts/smart_installer.py:132-154 | The score is 50, the maximum, iff the lower-cased name contains all four signals. |
| PackageInstaller.ScoreIgnoresCase | scripts/smart_installer.py:135 | The score depends only on the lower-cased name. |
| PackageInstaller.ScoreMonotone | scripts/smart_installer.py:135-152 | If the lower-cased n1 occurs inside the lower-cased n2, then score(n1) <= score(n2). |
| PackageInstaller.ScoreOfFullyTaggedName | scripts/smart_installer.py:132-154 | On linux / x86_64 / 3.11 / linux_x86_64, "mypkg_linux_x86_64_py311" scores 10+20+15+5 = 50. |
| PackageInstaller.FirstPatternSubsumed | scripts/smart_installer.py:114-119 | A name matches one of the four patterns iff it contains the tag, "python<ver>" or "py<ver without dots>". The `*system*py<ver>*` pattern adds nothing. |
| PackageInstaller.Glob | scripts/smart_installer.py:123 | The result holds exactly the listing entries that match the pattern. |
| PackageInstaller.ListOfSet | scripts/smart_installer.py:127 | `list(set)` holds every member exactly once. |
| PackageInstaller.SortByKey | scripts/smart_installer.py:128 | The output has the same names as the duplicate-free input, in the same number and without duplicates. It is non-decreasing by the key. |
| PackageInstaller.FindMatchingPackages | scripts/smart_installer.py:108-130 | The result has no duplicates. A name is in it iff it is in the listing and matches some pattern. The result is non-decreasing by score. |
| PackageInstaller.AutoCandidate | scripts/smart_installer.py:313-316 | As written: None iff nothing matched, else the first element of the list. |
| PackageInstaller.AutoCandidateScoresLowest | scripts/smart_installer.py:316 | On a list sorted ascending by score (line 128), the candidate auto mode takes scores no higher than any other. |
| PackageInstaller.AutoModeInstallsWorstMatch | scripts/smart_installer.py:313-316 | With bundles "mypkg_linux_x86_64_py311" (score 50) and "py311" (score 20), every admissible result of FindMatchingPackages makes auto mode install "py311". |
| PackageInstaller.BestCandidate | scripts/smart_installer.py:299-300 | Corrected auto choice: None iff the list is empty, else a candidate that no other outscores. |
| PackageInstaller.DistributionName | scripts/smart_installer.py:185 | The name holds no "-", is a prefix of the wheel file name, and is followed there by "-" unless it is the whole name. |
| PackageInstaller.InstallCommand | scripts/smart_installer.py:156-187 | DirectoryNotFound iff the directory is missing. NoWheelFiles iff it exists but has no `*.whl` entry. Otherwise the command starts with the offline pip prefix, and the targets follow a priority. A non-empty package list goes verbatim. Otherwise `-r <dir>/requirements_locked.txt` goes when that file exists. Otherwise the distinct wheel distribution names go, each once, exactly those. |
| PackageInstaller.FailedImportsMembers | scripts/smart_installer.py:206-214 | A name is in the failed list iff it was asked for and its import fails. |
| PackageInstaller.FailedImportsSnoc | scripts/smart_installer.py:208-214 | Checking one more package appends it to the failures iff its import fails, so the failures keep input order. |
| PackageInstaller.VerifyInstallation | scripts/smart_installer.py:203-221 | The failed list is the input filtered to failing imports, in input order. The result is True iff that list is empty, iff every package imports. |
| PackageInstaller.ChoiceIndex | scripts/smart_installer.py:256-260 | A choice is accepted iff 1 <= choice <= min(5, number of candidates). The index is then choice - 1, inside the list and inside the shown five. |
| PackageInstaller.PromptForCandidate | scripts/smart_installer.py:254-265 | The first answer that is not an out-of-range number decides. A valid number selects its index, text or Ctrl-C cancels, and if every answer is rejected the prompt runs out of input. |
| PackageInstaller.PackagesFromAnswer | scripts/smart_installer.py:268-269 | A blank answer gives None (install everything). Otherwise the result is the non-empty list of whitespace-separated names. |

## Left out

- Running pip with `subprocess.run`, both for the install and for `--version`.
  The model stops at the argument list and at parsing a given return code and
  output. Turning the install's return code into True/False, and printing
  stdout/stderr, are left out.
- Host queries are parameters, not calls: `platform.*`, `sys.version_info`,
  `sys.prefix` and its siblings, `os.environ`. `python_implementation` and
  `sys.executable` are only displayed, so they are not part of the fingerprint;
  the executable appears only as the first word of the pip command.
- Filesystem access is modelled as data:
  - `Path.glob` becomes a filter over a listing of names, matched
    case-sensitively as on Linux.
  - Glob metacharacters inside the fingerprint strings are not interpreted.
  - Each `exists()` is a boolean.
  - `str(Path)` normalisation is not modelled: the directory string is used as
    given, and the requirements path is `<dir>/requirements_locked.txt`.
- `__import__` is an oracle. An exception other than ImportError, which the
  source would let propagate, is not modelled.
- `PyText.Lower` handles only the ASCII letters. Python's `str.lower()` also
  maps non-ASCII letters.
- The interactive glue is left out: every `print`, `json.dumps`, `argparse`,
  the `--info` path and the final y/N confirmation. Answers to the menu prompt
  arrive already classified (a number, text that `int()` rejects, or Ctrl-C),
  so `int()`'s string parsing is not modelled.
- The `zipfile` and `tarfile` imports are unused.
- PackageInstaller.SortByKey: models Python's in-place Timsort as a stable
  insertion into a new sequence, applied to the duplicate-free list that
  follows `set`. Permutation is stated as same members, same length and no
  duplicates.
- PackageInstaller.FindMatchingPackages: does not model the glob error for
  an empty system name. `platform.system()` returns "" when it cannot tell,
  and then pattern 1 becomes `**py<ver>*`. pathlib up to Python 3.12 rejects
  that pattern with ValueError, and nothing catches it, so the search, `--auto`
  and interactive mode all fail. The model treats the pattern as an ordinary
  glob and returns the matches.
- PackageInstaller.FindMatchingPackages: states no order among names with
  equal scores. The source leaves that order to `set` iteration.
- PackageInstaller.InstallCommand: states no order for the derived
  distribution names, for the same reason.

## Findings

| source | as written | input that shows it | evidently intended | confidence | as-written member | corrected member |
|---|---|---|---|---|---|---|
| scripts/smart_installer.py:316 | `--auto` installs `matching_dirs[0]`. The list is sorted ascending by score (line 128), so this is a lowest-scoring candidate. The interactive menu likewise lists the five lowest first (line 250). | A Linux x86_64 CPython 3.11 host whose packages directory holds `mypkg_linux_x86_64_py311` and `py311`. Auto mode installs `py311` (score 20) instead of the score-50 bundle. | Install the best-matching directory, as the `--auto` help text says (line 300). | not executed; high | PackageInstaller.AutoModeInstallsWorstMatch | PackageInstaller.BestCandidate |
