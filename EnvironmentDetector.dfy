/**
 * The environment fingerprint of the offline installer (class EnvironmentDetector
 * of scripts/smart_installer.py). Host queries (platform.system(),
 * platform.machine(), sys.version_info, the attributes of `sys`, os.environ and
 * the result of running `pip --version`) are passed in as values.
 */
module EnvironmentDetector {
  import opened Wrappers
  import opened PyText

  // ------------------------------------------------------- platform tag

  /** The seven wheel platform tags the detector can produce. */
  predicate IsKnownTag(tag: string) {
    tag in {"win_amd64", "win32", "linux_x86_64", "linux_aarch64",
            "macosx_10_9_x86_64", "macosx_11_0_arm64", "unknown"}
  }

  /**
   * get_platform_tag: maps the lower-cased system and machine names to a
   * platform tag. Each postcondition gives the exact set of inputs that yields
   * one tag, so together they are the decision table read backwards.
   */
  function PlatformTag(system: string, machine: string): (tag: string)
    ensures IsKnownTag(tag)
    ensures system == "windows" ==> tag == "win_amd64" || tag == "win32"
    ensures tag == "win_amd64" <==> system == "windows" && (machine == "amd64" || machine == "x86_64")
    ensures tag == "win32" <==> system == "windows" && machine != "amd64" && machine != "x86_64"
    ensures tag == "linux_x86_64" <==> system == "linux" && machine == "x86_64"
    ensures tag == "linux_aarch64" <==>
              system == "linux" && (StartsWith(machine, "arm") || machine == "aarch64")
    ensures tag == "macosx_10_9_x86_64" <==> system == "darwin" && machine == "x86_64"
    ensures tag == "macosx_11_0_arm64" <==> system == "darwin" && machine == "arm64"
    ensures tag == "unknown" <==>
              || (system != "windows" && system != "linux" && system != "darwin")
              || (system == "linux" && machine != "x86_64" && machine != "aarch64"
                  && !StartsWith(machine, "arm"))
              || (system == "darwin" && machine != "x86_64" && machine != "arm64")
  {
    assert !StartsWith("x86_64", "arm") && !StartsWith("arm64", "x86_64") by {
      assert "x86_64"[..3][0] != "arm"[0];
    }
    if system == "windows" then
      if machine == "amd64" || machine == "x86_64" then "win_amd64" else "win32"
    else if system == "linux" && machine == "x86_64" then "linux_x86_64"
    else if system == "linux" && (StartsWith(machine, "arm") || machine == "aarch64") then "linux_aarch64"
    else if system == "darwin" && machine == "x86_64" then "macosx_10_9_x86_64"
    else if system == "darwin" && machine == "arm64" then "macosx_11_0_arm64"
    else "unknown"
  }

  /** The two linux/arm cases differ: any "arm…" prefix matches, but "aarch64" only exactly. */
  lemma ArmPrefixVersusExactAarch64()
    ensures PlatformTag("linux", "armv7l") == "linux_aarch64"
    ensures PlatformTag("linux", "aarch64") == "linux_aarch64"
    ensures PlatformTag("linux", "aarch64_be") == "unknown"
  {
    assert StartsWith("armv7l", "arm") by { assert "armv7l"[..3] == "arm"; }
    assert !StartsWith("aarch64_be", "arm") by { assert "aarch64_be"[..3][1] != "arm"[1]; }
  }

  // ------------------------------------------- virtual environment

  datatype VenvKind = Conda | Virtualenv | Venv

  /** The `venv_info` dictionary: in_venv, venv_type and venv_path. */
  datatype VenvInfo = VenvInfo(inVenv: bool, venvType: Option<VenvKind>, venvPath: Option<string>)

  /**
   * What detect_virtual_env reads from `sys`: whether `sys.real_prefix`
   * exists, `sys.base_prefix` (None when the attribute is absent) and
   * `sys.prefix`.
   */
  datatype Interpreter = Interpreter(hasRealPrefix: bool, basePrefix: Option<string>, prefix: string)

  /** `os.environ.get(key)`. */
  function EnvGet(environ: map<string, string>, key: string): (v: Option<string>)
    ensures v.Some? <==> key in environ
    ensures v.Some? ==> v.value == environ[key]
  {
    if key in environ then Some(environ[key]) else None
  }

  /** `os.environ.get(key)` is truthy: the variable is set and not empty. */
  predicate EnvSet(environ: map<string, string>, key: string) {
    key in environ && environ[key] != ""
  }

  /** The test on line 54: a legacy real_prefix, or a base prefix that differs from the prefix. */
  predicate Isolated(py: Interpreter) {
    py.hasRealPrefix || (py.basePrefix.Some? && py.basePrefix.value != py.prefix)
  }

  /**
   * detect_virtual_env: starts from "not in a virtual environment" and, when the
   * interpreter is isolated, fills in the type and the path by the first rule
   * that applies: conda, then VIRTUAL_ENV, then real_prefix, then venv.
   */
  method DetectVirtualEnv(py: Interpreter, environ: map<string, string>) returns (info: VenvInfo)
    ensures info.inVenv <==> Isolated(py)
    ensures info.inVenv <==> info.venvType.Some?
    ensures !info.inVenv ==> info.venvPath == None
    ensures info.venvType == Some(Conda) <==> Isolated(py) && EnvSet(environ, "CONDA_DEFAULT_ENV")
    ensures info.venvType == Some(Virtualenv) <==>
              Isolated(py) && !EnvSet(environ, "CONDA_DEFAULT_ENV")
              && (EnvSet(environ, "VIRTUAL_ENV") || py.hasRealPrefix)
    ensures info.venvType == Some(Venv) <==>
              Isolated(py) && !EnvSet(environ, "CONDA_DEFAULT_ENV")
              && !EnvSet(environ, "VIRTUAL_ENV") && !py.hasRealPrefix
    ensures info.venvType == Some(Conda) ==> info.venvPath == EnvGet(environ, "CONDA_PREFIX")
    ensures info.venvType == Some(Virtualenv) && EnvSet(environ, "VIRTUAL_ENV") ==>
              info.venvPath == Some(environ["VIRTUAL_ENV"])
    ensures info.venvType == Some(Virtualenv) && !EnvSet(environ, "VIRTUAL_ENV") ==>
              info.venvPath == Some(py.prefix)
    ensures info.venvType == Some(Venv) ==> info.venvPath == Some(py.prefix)
  {
    info := VenvInfo(false, None, None);
    if py.hasRealPrefix || (py.basePrefix.Some? && py.basePrefix.value != py.prefix) {
      info := info.(inVenv := true);
      var condaEnv := EnvGet(environ, "CONDA_DEFAULT_ENV");
      var virtualEnv := EnvGet(environ, "VIRTUAL_ENV");
      if condaEnv.Some? && condaEnv.value != "" {
        info := info.(venvType := Some(Conda));
        info := info.(venvPath := EnvGet(environ, "CONDA_PREFIX"));
      } else if virtualEnv.Some? && virtualEnv.value != "" {
        info := info.(venvType := Some(Virtualenv));
        info := info.(venvPath := virtualEnv);
      } else if py.hasRealPrefix {
        info := info.(venvType := Some(Virtualenv));
        info := info.(venvPath := Some(py.prefix));
      } else {
        info := info.(venvType := Some(Venv));
        info := info.(venvPath := Some(py.prefix));
      }
    }
  }

  // ------------------------------------------------------- pip version

  /** The outcome of running `python -m pip --version`: it could not be started, or it exited. */
  datatype PipRun = LaunchFailed | Exited(returncode: int, stdout: string)

  /**
   * get_pip_version: the second whitespace-separated word of the output of a
   * successful run; "unknown" when the run failed to start, exited non-zero,
   * or printed fewer than two words (the IndexError the bare except swallows).
   */
  function PipVersion(run: PipRun): (version: string)
    ensures version != [] && NoSpace(version)
    ensures run.LaunchFailed? || run.returncode != 0 ==> version == "unknown"
    ensures run.Exited? && run.returncode == 0 && |Tokens(run.stdout)| < 2 ==> version == "unknown"
    ensures run.Exited? && run.returncode == 0 && |Tokens(run.stdout)| >= 2 ==> version == Tokens(run.stdout)[1]
  {
    if run.Exited? && run.returncode == 0 && |Tokens(run.stdout)| >= 2 then Tokens(run.stdout)[1]
    else "unknown"
  }

  /**
   * pip's banner "pip <version> from <path> (python <x.y>)" yields <version>:
   * optional leading whitespace, any first word, a run of whitespace, then a
   * version word ended by whitespace or by the end of the output.
   */
  lemma {:induction false} PipVersionOfBanner(lead: string, name: string, sep: string, version: string, rest: string)
    requires IsBlank(lead)
    requires name != [] && NoSpace(name)
    requires sep != [] && IsBlank(sep)
    requires version != [] && NoSpace(version)
    requires rest == [] || IsSpace(rest[0])
    ensures PipVersion(Exited(0, lead + name + sep + version + rest)) == version
  {
    var tail := sep + version + rest;
    assert lead + name + sep + version + rest == lead + name + tail;
    TokensOfLeadWord(lead, name, tail);
    TokensOfLeadWord(sep, version, rest);
  }

  /** A successful run whose output has a single word, such as "pip\n", still gives "unknown". */
  lemma {:induction false} PipVersionOfSingleWord(lead: string, word: string, trail: string)
    requires IsBlank(lead) && IsBlank(trail)
    requires word != [] && NoSpace(word)
    ensures PipVersion(Exited(0, lead + word + trail)) == "unknown"
  {
    TokensOfLeadWord(lead, word, trail);
    TokensEmptyIffBlank(trail);
  }

  /** A successful run with blank output gives "unknown". */
  lemma {:induction false} PipVersionOfBlankOutput(out: string)
    requires IsBlank(out)
    ensures PipVersion(Exited(0, out)) == "unknown"
  {
    TokensEmptyIffBlank(out);
  }

  // ------------------------------------------------------- fingerprint

  /** The part of get_environment_info that the bundle selector consumes. */
  datatype Fingerprint = Fingerprint(system: string, machine: string, pythonVersion: string, platformTag: string)

  /** The python version with its dots removed, as in `python_version.replace(".", "")`. */
  function CompactVersion(fp: Fingerprint): string {
    Without(fp.pythonVersion, '.')
  }

  /** Dropping the dot from "<digits>.<digits>" joins the two digit runs. */
  lemma {:induction false} CompactOfDotted(a: string, b: string)
    requires IsDigits(a) && IsDigits(b)
    ensures Without(a + "." + b, '.') == a + b
  {
    calc {
      Without(a + "." + b, '.');
      { WithoutAppend(a + ".", b, '.'); }
      Without(a + ".", '.') + Without(b, '.');
      { WithoutAppend(a, ".", '.'); }
      Without(a, '.') + Without(".", '.') + Without(b, '.');
      { assert forall i :: 0 <= i < |a| ==> a[i] != '.';
        assert forall i :: 0 <= i < |b| ==> b[i] != '.';
        WithoutSingle('.', '.'); }
      a + b;
    }
  }

  /**
   * EnvironmentDetector.__init__ and get_platform_tag: lower-cases the system and
   * machine names, renders "major.minor" and derives the platform tag.
   */
  function Detect(rawSystem: string, rawMachine: string, major: nat, minor: nat): (fp: Fingerprint)
    ensures fp.system == Lower(rawSystem) && fp.machine == Lower(rawMachine)
    ensures IsLower(fp.system) && IsLower(fp.machine)
    ensures |fp.system| == |rawSystem| && |fp.machine| == |rawMachine|
    ensures fp.pythonVersion == Decimal(major) + "." + Decimal(minor)
    ensures IsKnownTag(fp.platformTag)
    ensures fp.platformTag == PlatformTag(fp.system, fp.machine)
    ensures CompactVersion(fp) == Decimal(major) + Decimal(minor)
  {
    var version := Decimal(major) + "." + Decimal(minor);
    CompactOfDotted(Decimal(major), Decimal(minor));
    Fingerprint(Lower(rawSystem), Lower(rawMachine), version,
                PlatformTag(Lower(rawSystem), Lower(rawMachine)))
  }

  /** Upper-case host names are normalised before the table is consulted. */
  lemma DetectIgnoresCase(rawSystem: string, rawMachine: string, major: nat, minor: nat)
    ensures Detect(rawSystem, rawMachine, major, minor)
         == Detect(Lower(rawSystem), Lower(rawMachine), major, minor)
  {
    LowerIdempotent(rawSystem);
    LowerIdempotent(rawMachine);
  }
}
