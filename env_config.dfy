/**
 * The environment handed to deployment scripts (main.py). `load_env_config` reads a
 * file of KEY=VALUE lines; the result is laid over the inherited process environment
 * once at start-up (GLOBAL_ENV), and each deployment lays REPO_NAME over that.
 */
module EnvConfig {
  import opened Wrappers
  import opened Text

  type Env = map<string, string>

  /** The configuration file as `open(ENV_DIR)` sees it: its lines, or a failure to open or read. */
  datatype EnvFile = Unreadable | Lines(lines: seq<string>)

  /** A kept line: after stripping, non-empty, not a comment, and holding an '='. */
  predicate IsEntry(t: string) {
    t != [] && t[0] != '#' && '=' in t
  }

  /**
   * The (key, value) a line contributes, if any: the stripped line is cut at its
   * first '=' and both halves are stripped.
   */
  function ParseLine(line: string): (e: Option<(string, string)>)
    ensures e.None? <==> !IsEntry(Strip(line))
    ensures e.Some? ==> Trimmed(e.value.0) && Trimmed(e.value.1) && '=' !in e.value.0
  {
    var t := Strip(line);
    if !IsEntry(t) then None
    else
      var i := FirstIndexOf(t, '=');
      StripCutsOnlySpace(t[..i]);
      Some((Strip(t[..i]), Strip(t[i + 1..])))
  }

  /**
   * Splitting at the first '=': whenever the stripped line reads `k + "=" + v` with
   * no '=' in `k`, the entry is `(k, v)`, each stripped, whatever '=' `v` holds.
   */
  lemma ParseLineSplitsAtFirstEquals(line: string, k: string, v: string)
    requires Strip(line) == k + "=" + v && '=' !in k
    requires Strip(line)[0] != '#'
    ensures ParseLine(line) == Some((Strip(k), Strip(v)))
  {
    var t := Strip(line);
    assert t[|k|] == '=';
    var i := FirstIndexOf(t, '=');
    assert i == |k|;
    assert t[..i] == k;
    assert t[i + 1..] == v;
  }

  /** The text a line holding `key` and `value` has. */
  function FormatLine(key: string, value: string): string {
    key + "=" + value
  }

  /** Any key and value the parser can produce are read back from their formatted line. */
  lemma ParseFormatLine(key: string, value: string)
    requires (key == [] || key[0] != '#') && '=' !in key
    requires Trimmed(key) && Trimmed(value)
    ensures ParseLine(FormatLine(key, value)) == Some((key, value))
  {
    var line := FormatLine(key, value);
    assert Trimmed(line);
    assert [] + line + [] == line;
    StripRecoversCore([], line, []);
    assert [] + key + [] == key;
    StripRecoversCore([], key, []);
    assert [] + value + [] == value;
    StripRecoversCore([], value, []);
    ParseLineSplitsAtFirstEquals(line, key, value);
  }

  /** `line` is kept and its key is `k`. */
  predicate Defines(line: string, k: string) {
    ParseLine(line).Some? && ParseLine(line).value.0 == k
  }

  /** The map built from `lines`, one line after the other, a later line overwriting an earlier one. */
  function ParseLines(lines: seq<string>): Env {
    if lines == [] then map[]
    else Assign(ParseLines(lines[..|lines| - 1]), ParseLine(lines[|lines| - 1]))
  }

  /** `env_vars[key] = value` for a kept line; nothing for a skipped one. */
  function Assign(env: Env, entry: Option<(string, string)>): Env {
    match entry
    case None => env
    case Some(kv) => env[kv.0 := kv.1]
  }

  /** Only keys some kept line defines appear in the map. */
  lemma {:induction false} ParseLinesKeysDefined(lines: seq<string>, k: string)
    requires k in ParseLines(lines)
    ensures exists i :: 0 <= i < |lines| && Defines(lines[i], k)
  {
    var init := lines[..|lines| - 1];
    var last := lines[|lines| - 1];
    if Defines(last, k) {
      assert Defines(lines[|lines| - 1], k);
    } else {
      assert k in ParseLines(init);
      ParseLinesKeysDefined(init, k);
      var i :| 0 <= i < |init| && Defines(init[i], k);
      assert lines[i] == init[i];
    }
  }

  /** The value of a key is that of the last kept line defining it. */
  lemma {:induction false} ParseLinesLastWins(lines: seq<string>, i: nat, k: string)
    requires i < |lines| && Defines(lines[i], k)
    requires forall j :: i < j < |lines| ==> !Defines(lines[j], k)
    ensures k in ParseLines(lines) && ParseLines(lines)[k] == ParseLine(lines[i]).value.1
  {
    var init := lines[..|lines| - 1];
    if i < |lines| - 1 {
      assert init[i] == lines[i];
      forall j | i < j < |init| ensures !Defines(init[j], k) {
        assert init[j] == lines[j];
      }
      ParseLinesLastWins(init, i, k);
      assert !Defines(lines[|lines| - 1], k);
    }
  }

  /** Lines that are blank, comments or lack an '=' contribute nothing. */
  lemma SkippedLineChangesNothing(lines: seq<string>, line: string)
    requires !IsEntry(Strip(line))
    ensures ParseLines(lines + [line]) == ParseLines(lines)
  {
    assert (lines + [line])[..|lines|] == lines;
  }

  /** What `load_env_config()` returns for the file: any failure while opening or reading gives {}. */
  function EnvConfigOf(file: EnvFile): Env {
    match file
    case Unreadable => map[]
    case Lines(lines) => ParseLines(lines)
  }

  /** `load_env_config()`: one pass over the lines, assigning into the dictionary as it goes. */
  method LoadEnvConfig(file: EnvFile) returns (envVars: Env)
    ensures envVars == EnvConfigOf(file)
    ensures file.Unreadable? ==> envVars == map[]
  {
    if file.Unreadable? {
      return map[];
    }
    var lines := file.lines;
    envVars := map[];
    var n := 0;
    while n < |lines|
      invariant n <= |lines|
      invariant envVars == ParseLines(lines[..n])
    {
      var line := lines[n];
      assert lines[..n + 1][..n] == lines[..n];
      match ParseLine(line) {
        case None =>
        case Some(kv) =>
          envVars := envVars[kv.0 := kv.1];
      }
      n := n + 1;
    }
    assert lines[..n] == lines;
  }

  /** `{**os.environ, **load_env_config()}`: file entries override inherited ones. */
  function GlobalEnv(inherited: Env, fromFile: Env): (env: Env)
    ensures env.Keys == inherited.Keys + fromFile.Keys
    ensures forall k :: k in fromFile ==> env[k] == fromFile[k]
    ensures forall k :: k in inherited && k !in fromFile ==> env[k] == inherited[k]
  {
    inherited + fromFile
  }

  const RepoNameVar: string := "REPO_NAME"

  /** `{**GLOBAL_ENV, "REPO_NAME": repo_name}`: the environment of one deployment. */
  function ProcessEnv(global: Env, repoName: string): (env: Env)
    ensures env.Keys == global.Keys + {RepoNameVar}
    ensures env[RepoNameVar] == repoName
    ensures forall k :: k in global && k != RepoNameVar ==> env[k] == global[k]
  {
    global[RepoNameVar := repoName]
  }

  /**
   * The three layers of a deployment's environment: REPO_NAME over kept file lines
   * over the inherited environment, and nothing else.
   */
  lemma DeploymentEnvLayers(inherited: Env, file: EnvFile, repoName: string, k: string)
    ensures var env := ProcessEnv(GlobalEnv(inherited, EnvConfigOf(file)), repoName);
      && (k in env <==> k == RepoNameVar || k in inherited || k in EnvConfigOf(file))
      && (k == RepoNameVar ==> env[k] == repoName)
      && (k != RepoNameVar && k in EnvConfigOf(file) ==> env[k] == EnvConfigOf(file)[k])
      && (k != RepoNameVar && k !in EnvConfigOf(file) && k in inherited ==> env[k] == inherited[k])
  {
  }

  /** An unreadable file leaves the inherited environment, plus REPO_NAME. */
  lemma UnreadableFileDegrades(inherited: Env, repoName: string)
    ensures ProcessEnv(GlobalEnv(inherited, EnvConfigOf(Unreadable)), repoName)
         == inherited[RepoNameVar := repoName]
  {
  }

  /** The sample file: a plain entry, a comment, a blank line and a value holding '='. */
  lemma SampleFile()
    ensures EnvConfigOf(Lines(["A=1", "# comment", " ", "B=2=3"])) == map["A" := "1", "B" := "2=3"]
  {
    SampleLines();
    FourLines("A=1", "# comment", " ", "B=2=3");
  }

  lemma SampleLines()
    ensures ParseLine("A=1") == Some(("A", "1")) && ParseLine("# comment") == None
    ensures ParseLine(" ") == None && ParseLine("B=2=3") == Some(("B", "2=3"))
  {
    assert FormatLine("A", "1") == "A=1";
    ParseFormatLine("A", "1");
    assert "# comment" == [] + "# comment" + [];
    StripRecoversCore([], "# comment", []);
    assert " " == " " + [] + [];
    StripRecoversCore(" ", [], []);
    assert FormatLine("B", "2=3") == "B=2=3";
    ParseFormatLine("B", "2=3");
  }

  lemma FourLines(l0: string, l1: string, l2: string, l3: string)
    requires ParseLine(l0) == Some(("A", "1")) && ParseLine(l1) == None
    requires ParseLine(l2) == None && ParseLine(l3) == Some(("B", "2=3"))
    ensures ParseLines([l0, l1, l2, l3]) == map["A" := "1", "B" := "2=3"]
  {
    var lines := [l0, l1, l2, l3];
    assert lines[..1][..0] == [];
    assert ParseLines(lines[..1]) == map["A" := "1"];
    assert lines[..2][..1] == lines[..1];
    assert ParseLines(lines[..2]) == map["A" := "1"];
    assert lines[..3][..2] == lines[..2];
    assert ParseLines(lines[..3]) == map["A" := "1"];
    assert lines[..3] == lines[..|lines| - 1];
  }

  /** A kept line with padding around key and value, and a second '=' in the value. */
  lemma PaddedLine()
    ensures ParseLine(" B = 2=3 ") == Some(("B", "2=3"))
  {
    assert Strip(" B = 2=3 ") == "B = 2=3" by {
      assert " B = 2=3 " == " " + "B = 2=3" + " ";
      StripRecoversCore(" ", "B = 2=3", " ");
    }
    assert Strip("B ") == "B" by {
      assert "B " == [] + "B" + " ";
      StripRecoversCore([], "B", " ");
    }
    assert Strip(" 2=3") == "2=3" by {
      assert " 2=3" == " " + "2=3" + [];
      StripRecoversCore(" ", "2=3", []);
    }
    assert "B = 2=3" == "B " + "=" + " 2=3";
    ParseLineSplitsAtFirstEquals(" B = 2=3 ", "B ", " 2=3");
  }
}
