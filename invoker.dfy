/**
 * Engine invocation policy (`run_codeql_analysis`): create a database,
 * analyze it with the resolved query suite, retry the analysis once with
 * the code-scanning suite, and make sure a report file exists afterwards.
 *
 * The engine itself is foreign: `run_command` is modelled by an `Engine`
 * whose n-th invocation ends as `outcome(n)` and leaves the files
 * `writes(n)` in the result directory. The engine keeps a log of every
 * command line it was handed.
 */
module EngineInvoker {
  import opened Wrappers
  import opened Paths
  import opened Languages
  import opened BuildStrategy
  import opened QuerySuites
  import opened JsonValues

  /** The settings fixed at start-up: the engine binary, the result directory, the query clone. */
  datatype Config = Config(codeqlBin: string, resultDir: string, repoPath: string)

  /** How a child process can end, as `run_command` sees it. */
  datatype Outcome =
    | Exited(code: int)      // the process ran to completion with this return code
    | TimeoutExpired         // the 600-second limit was hit
    | Raised(error: string)  // starting or waiting for the process raised

  const TimeoutCode := -2
  const ExceptionCode := -1

  /** The exit code `run_command` reports for an outcome. */
  function ExitCode(o: Outcome): int {
    match o
    case Exited(c) => c
    case TimeoutExpired => TimeoutCode
    case Raised(_) => ExceptionCode
  }

  /** Why a scan raises. */
  datatype ScanError = DatabaseCreationFailed | AnalysisFailed

  /** The document written when the engine left no report behind: `{"runs": []}`. */
  const EmptyReport := JObj([("runs", JArr([]))])

  /** The engine as seen through `run_command`. */
  class Engine {
    /** How the n-th invocation ends. */
    const outcome: nat -> Outcome
    /** The files the n-th invocation leaves in the result directory. */
    const writes: nat -> map<string, Json>
    /** Every command line handed to the engine, in order. */
    var log: seq<string>
    /** The documents in the result directory, by path. */
    var files: map<string, Json>

    constructor (outcome: nat -> Outcome, writes: nat -> map<string, Json>, files: map<string, Json>)
      ensures this.outcome == outcome && this.writes == writes
      ensures log == [] && this.files == files
    {
      this.outcome := outcome;
      this.writes := writes;
      this.log := [];
      this.files := files;
    }

    /** The exit code of the n-th invocation. */
    function Code(n: nat): int {
      ExitCode(outcome(n))
    }

    /** The result directory after invocations `from`, ..., `from + count - 1` have run on `files`. */
    function Written(files: map<string, Json>, from: nat, count: nat): (r: map<string, Json>)
      ensures files.Keys <= r.Keys
      decreases count
    {
      if count == 0 then files else Written(files + writes(from), from + 1, count - 1)
    }

    /** `run_command(cmd)`: one invocation, logged; its exit code is returned. */
    method RunCommand(cmd: string) returns (code: int)
      modifies this
      ensures log == old(log) + [cmd]
      ensures code == Code(|old(log)|)
      ensures files == old(files) + writes(|old(log)|)
    {
      code := Code(|log|);
      files := files + writes(|log|);
      log := log + [cmd];
    }
  }

  /** `" ".join(words)`. */
  function JoinWords(words: seq<string>): string {
    if words == [] then ""
    else if |words| == 1 then words[0]
    else JoinWords(words[..|words| - 1]) + " " + words[|words| - 1]
  }

  /** The database lives beside the sources. */
  function DatabaseDir(srcDir: string): string {
    Join(srcDir, "codeql_db")
  }

  /** The words of the create command before any build command is attached. */
  function BaseCreateWords(cfg: Config, srcDir: string, srcDirAbs: string, lang: Language): seq<string> {
    [ Quoted(cfg.codeqlBin), "database", "create", Quoted(DatabaseDir(srcDir)),
      "--language=" + Name(lang), "--source-root=" + Quoted(srcDirAbs), "--overwrite" ]
  }

  const CommandFlag := "--command="

  /** A word whose first or third character differs from the flag's does not start with it. */
  lemma NotCommandWord(w: string)
    requires |w| >= 3 && (w[0] != '-' || w[2] != 'c')
    ensures !(CommandFlag <= w)
  {
    assert CommandFlag[0] == '-' && CommandFlag[2] == 'c';
  }

  /** A word that begins with `prefix`, whose first or third character is not the flag's. */
  lemma NotCommandWordWithPrefix(prefix: string, rest: string)
    requires (|prefix| >= 1 && prefix[0] != '-') || (|prefix| >= 3 && prefix[2] != 'c')
    ensures !(CommandFlag <= prefix + rest)
  {
    var w := prefix + rest;
    assert CommandFlag[0] == '-' && CommandFlag[2] == 'c';
    assert |w| >= 3 ==> w[0] == prefix[0];
    assert |prefix| >= 3 ==> w[2] == prefix[2];
  }

  /** Seven words none of which starts with the flag, put in a row. */
  lemma NoFlagInSevenWords(w0: string, w1: string, w2: string, w3: string, w4: string, w5: string, w6: string)
    requires !(CommandFlag <= w0) && !(CommandFlag <= w1) && !(CommandFlag <= w2) && !(CommandFlag <= w3)
    requires !(CommandFlag <= w4) && !(CommandFlag <= w5) && !(CommandFlag <= w6)
    ensures forall k :: 0 <= k < 7 ==> !(CommandFlag <= [w0, w1, w2, w3, w4, w5, w6][k])
  {
  }

  /** No base word starts with the build-command flag. */
  lemma BaseWordsHaveNoCommandFlag(cfg: Config, srcDir: string, srcDirAbs: string, lang: Language)
    ensures forall k :: 0 <= k < 7 ==> !(CommandFlag <= BaseCreateWords(cfg, srcDir, srcDirAbs, lang)[k])
  {
    NotCommandWordWithPrefix("\"", cfg.codeqlBin + "\"");
    NotCommandWord("database");
    NotCommandWord("create");
    NotCommandWordWithPrefix("\"", DatabaseDir(srcDir) + "\"");
    NotCommandWordWithPrefix("--language=", Name(lang));
    NotCommandWordWithPrefix("--source-root=", Quoted(srcDirAbs));
    NotCommandWord("--overwrite");
    NoFlagInSevenWords(Quoted(cfg.codeqlBin), "database", "create", Quoted(DatabaseDir(srcDir)),
      "--language=" + Name(lang), "--source-root=" + Quoted(srcDirAbs), "--overwrite");
  }

  /** `cmd_create_parts`: the base words, plus `--command="<build>"` when there is a build command. */
  function CreateWords(cfg: Config, srcDir: string, srcDirAbs: string, lang: Language, build: Option<string>): (w: seq<string>)
    ensures build.Some? <==> exists k :: 0 <= k < |w| && CommandFlag <= w[k]
    ensures build.Some? ==> w[|w| - 1] == CommandFlag + Quoted(build.value)
  {
    var base := BaseCreateWords(cfg, srcDir, srcDirAbs, lang);
    BaseWordsHaveNoCommandFlag(cfg, srcDir, srcDirAbs, lang);
    match build
    case Some(b) =>
      var w := base + [CommandFlag + Quoted(b)];
      assert CommandFlag <= w[|w| - 1];
      w
    case None => base
  }

  /** The create command line. */
  function CreateCommand(cfg: Config, srcDir: string, srcDirAbs: string, lang: Language, build: Option<string>): string {
    JoinWords(CreateWords(cfg, srcDir, srcDirAbs, lang, build))
  }

  /** Attaching a build command appends exactly one word to the plain create command line. */
  lemma CreateCommandWithBuild(cfg: Config, srcDir: string, srcDirAbs: string, lang: Language, b: string)
    ensures CreateCommand(cfg, srcDir, srcDirAbs, lang, Some(b)) ==
      CreateCommand(cfg, srcDir, srcDirAbs, lang, None) + " " + CommandFlag + Quoted(b)
  {
    var base := BaseCreateWords(cfg, srcDir, srcDirAbs, lang);
    var w := base + [CommandFlag + Quoted(b)];
    assert w[..|w| - 1] == base;
  }

  /** `result_<basename of the sources>_<lang>.sarif`: no timestamp, no random part. */
  function ResultFileName(srcDir: string, lang: Language): string {
    "result_" + Basename(srcDir) + "_" + Name(lang) + ".sarif"
  }

  function ResultPath(cfg: Config, srcDir: string, lang: Language): string {
    Join(cfg.resultDir, ResultFileName(srcDir, lang))
  }

  /**
   * The upload handler always analyses `<fresh temporary directory>/src`, so
   * every scan of a language writes to the same report path: a later scan
   * overwrites an earlier one's report.
   */
  lemma ScansOfOneLanguageShareAReport(cfg: Config, tmp1: string, tmp2: string, lang: Language)
    ensures ResultPath(cfg, Join(tmp1, "src"), lang) == ResultPath(cfg, Join(tmp2, "src"), lang)
    ensures ResultFileName(Join(tmp1, "src"), lang) == "result_" + "src" + "_" + Name(lang) + ".sarif"
  {
    BasenameOfJoin(tmp1, "src");
    BasenameOfJoin(tmp2, "src");
  }

  /** The words both analyze commands begin with, up to the suite. */
  function AnalyzeHead(cfg: Config, srcDir: string): string {
    Quoted(cfg.codeqlBin) + " database analyze " + Quoted(DatabaseDir(srcDir)) + " "
  }

  /** The words both analyze commands end with: the output format and the report path. */
  function AnalyzeTail(cfg: Config, srcDir: string, lang: Language): string {
    " --format=sarif-latest --output=" + Quoted(ResultPath(cfg, srcDir, lang)) + " --download"
  }

  /** The first analyze command, with the suite that `get_query_suite` resolved, quoted. */
  function AnalyzeCommand(cfg: Config, srcDir: string, lang: Language, suite: string): string {
    AnalyzeHead(cfg, srcDir) + Quoted(suite) + AnalyzeTail(cfg, srcDir, lang)
  }

  /** The retry: the same analysis with the engine's own code-scanning suite, unquoted. */
  function FallbackCommand(cfg: Config, srcDir: string, lang: Language): string {
    AnalyzeHead(cfg, srcDir) + CodeScanningFile(lang) + AnalyzeTail(cfg, srcDir, lang)
  }

  /** Quoting a quoted string puts two quote characters on each side. */
  lemma QuotedTwice(s: string)
    ensures Quoted(Quoted(s)) == "\"\"" + s + "\"\""
  {
    var q := Quoted(Quoted(s));
    var e := "\"\"" + s + "\"\"";
    assert |q| == |e|;
    forall i | 0 <= i < |q|
      ensures q[i] == e[i]
    {
    }
  }

  /**
   * A suite file found in the local clone comes back from `get_query_suite`
   * already quoted and is quoted again here, so the path itself stands
   * between two empty quoted strings on the command line.
   */
  lemma LocalSuiteIsQuotedTwice(cfg: Config, srcDir: string, lang: Language, existing: set<string>)
    requires cfg.repoPath in existing && Candidates(cfg.repoPath, lang)[0] in existing
    ensures AnalyzeCommand(cfg, srcDir, lang, QuerySuite(cfg.repoPath, lang, existing)) ==
      AnalyzeHead(cfg, srcDir) + ("\"\"" + Candidates(cfg.repoPath, lang)[0] + "\"\"") + AnalyzeTail(cfg, srcDir, lang)
  {
    QuotedTwice(Candidates(cfg.repoPath, lang)[0]);
  }

  /** The analyze commands run when the first one exits with `c1`. */
  function AnalysisCommands(analyze: string, fallback: string, c1: int): seq<string> {
    if c1 == 0 then [analyze] else [analyze, fallback]
  }

  /** Whether the analysis step ends well when its invocations exit with `c1` and then `c2`. */
  predicate AnalysisSucceeds(c1: int, c2: int) {
    c1 == 0 || c2 == 0
  }

  /** The command lines a scan hands to the engine and how the scan ends. */
  datatype Trace = Trace(commands: seq<string>, outcome: Result<string, ScanError>)

  /**
   * The control flow of `run_codeql_analysis` over already assembled command
   * lines, when its three possible invocations exit with `c0`, `c1` and `c2`
   * (a code that is never reached plays no part).
   */
  function Steps(create: string, buildAttached: bool, analyze: string, fallback: string, report: string,
                 c0: int, c1: int, c2: int): Trace
  {
    if c0 != 0 && !buildAttached then
      Trace([create], Failure(DatabaseCreationFailed))
    else
      Trace([create] + AnalysisCommands(analyze, fallback, c1),
            if AnalysisSucceeds(c1, c2) then Success(report) else Failure(AnalysisFailed))
  }

  /** What `run_codeql_analysis` hands to the engine and how it ends. */
  function ScanTrace(cfg: Config, srcDir: string, srcDirAbs: string, lang: Language, existing: set<string>,
                     c0: int, c1: int, c2: int): Trace
  {
    var build := BuildCommand(srcDir, lang, existing);
    Steps(CreateCommand(cfg, srcDir, srcDirAbs, lang, build), build.Some?,
          AnalyzeCommand(cfg, srcDir, lang, QuerySuite(cfg.repoPath, lang, existing)),
          FallbackCommand(cfg, srcDir, lang), ResultPath(cfg, srcDir, lang), c0, c1, c2)
  }

  /**
   * The invocation policy: database creation is tried once and is fatal only
   * without a build command; the analysis is retried at most once, with the
   * code-scanning suite; success yields the report path.
   */
  lemma ScanPolicy(cfg: Config, srcDir: string, srcDirAbs: string, lang: Language, existing: set<string>,
                   c0: int, c1: int, c2: int)
    ensures var t := ScanTrace(cfg, srcDir, srcDirAbs, lang, existing, c0, c1, c2);
      && 1 <= |t.commands| <= 3
      && t.commands[0] == CreateCommand(cfg, srcDir, srcDirAbs, lang, BuildCommand(srcDir, lang, existing))
      && (t.outcome == Failure(DatabaseCreationFailed) <==> c0 != 0 && lang != Java)
      && (|t.commands| == 1 <==> t.outcome == Failure(DatabaseCreationFailed))
      && (|t.commands| >= 2 ==> t.commands[1] == AnalyzeCommand(cfg, srcDir, lang, QuerySuite(cfg.repoPath, lang, existing)))
      && (|t.commands| == 3 <==> |t.commands| >= 2 && c1 != 0)
      && (|t.commands| == 3 ==> t.commands[2] == FallbackCommand(cfg, srcDir, lang))
      && (t.outcome == Failure(AnalysisFailed) <==> |t.commands| == 3 && c2 != 0)
      && (t.outcome.Success? ==> t.outcome.value == ResultPath(cfg, srcDir, lang))
  {
  }

  /**
   * Only success matters: a timeout, an exception and a failing exit code
   * steer the scan identically.
   */
  lemma OnlySuccessIsDistinguished(cfg: Config, srcDir: string, srcDirAbs: string, lang: Language, existing: set<string>,
                                   o0: Outcome, o1: Outcome, o2: Outcome, p0: Outcome, p1: Outcome, p2: Outcome)
    requires (ExitCode(o0) == 0) == (ExitCode(p0) == 0)
    requires (ExitCode(o1) == 0) == (ExitCode(p1) == 0)
    requires (ExitCode(o2) == 0) == (ExitCode(p2) == 0)
    ensures ScanTrace(cfg, srcDir, srcDirAbs, lang, existing, ExitCode(o0), ExitCode(o1), ExitCode(o2))
         == ScanTrace(cfg, srcDir, srcDirAbs, lang, existing, ExitCode(p0), ExitCode(p1), ExitCode(p2))
  {
  }

  /** Only a process that ran to completion with exit code 0 counts as success; a timeout or an exception never does. */
  lemma TimeoutIsFailure(o: Outcome)
    ensures ExitCode(o) == 0 <==> o == Exited(0)
  {
  }

  /**
   * The analysis step: the first analyze command and, when it fails, the
   * fallback; `ok` says whether the last one run succeeded.
   */
  method AnalyzeWithFallback(engine: Engine, analyze: string, fallback: string) returns (ok: bool)
    modifies engine
    ensures var n := |old(engine.log)|;
      engine.log == old(engine.log) + AnalysisCommands(analyze, fallback, engine.Code(n))
    ensures var n := |old(engine.log)|;
      ok <==> AnalysisSucceeds(engine.Code(n), engine.Code(n + 1))
    ensures var n := |old(engine.log)|;
      engine.files == engine.Written(old(engine.files), n, |engine.log| - n)
  {
    ghost var n := |engine.log|;
    ghost var files0 := engine.files;
    var code := engine.RunCommand(analyze);
    assert engine.files == engine.Written(files0, n, 1);
    ok := code == 0;
    if !ok {
      code := engine.RunCommand(fallback);
      assert engine.files == engine.Written(files0, n, 2) by {
        assert engine.Written(files0, n, 2) == engine.Written(files0 + engine.writes(n), n + 1, 1);
      }
      ok := code == 0;
    }
  }

  /**
   * The invocation sequence of `run_codeql_analysis` once its command lines
   * are assembled: create, analyze, fall back, and leave a report behind.
   */
  method Invoke(engine: Engine, create: string, buildAttached: bool, analyze: string, fallback: string, report: string)
    returns (r: Result<string, ScanError>)
    modifies engine
    ensures var n := |old(engine.log)|;
      var t := Steps(create, buildAttached, analyze, fallback, report, engine.Code(n), engine.Code(n + 1), engine.Code(n + 2));
      engine.log == old(engine.log) + t.commands && r == t.outcome
    ensures var n := |old(engine.log)|;
      var w := engine.Written(old(engine.files), n, |engine.log| - n);
      engine.files == if r.Success? && r.value !in w then w[r.value := EmptyReport] else w
    ensures r.Success? ==> r.value in engine.files
  {
    ghost var n := |engine.log|;
    ghost var files0 := engine.files;
    var code := engine.RunCommand(create);
    assert engine.files == engine.Written(files0, n, 1);
    if code != 0 && !buildAttached {
      return Failure(DatabaseCreationFailed);
    }
    var ok := AnalyzeWithFallback(engine, analyze, fallback);
    assert engine.files == engine.Written(files0, n, |engine.log| - n) by {
      WrittenSplit(engine, files0, n, |engine.log| - n);
    }
    if !ok {
      return Failure(AnalysisFailed);
    }
    if report !in engine.files {
      engine.files := engine.files[report := EmptyReport];
    }
    r := Success(report);
  }

  /**
   * `run_codeql_analysis(src_dir, lang)`, with `os.path.abspath(src_dir)`
   * given as `srcDirAbs` and the existence checks of the source tree and the
   * query clone read off `existing`.
   */
  method RunCodeqlAnalysis(engine: Engine, cfg: Config, srcDir: string, srcDirAbs: string, lang: Language,
                           existing: set<string>)
    returns (r: Result<string, ScanError>)
    modifies engine
    ensures var n := |old(engine.log)|;
      var t := ScanTrace(cfg, srcDir, srcDirAbs, lang, existing, engine.Code(n), engine.Code(n + 1), engine.Code(n + 2));
      engine.log == old(engine.log) + t.commands && r == t.outcome
    ensures var n := |old(engine.log)|;
      var w := engine.Written(old(engine.files), n, |engine.log| - n);
      engine.files == if r.Success? && r.value !in w then w[r.value := EmptyReport] else w
    ensures r.Success? ==> r.value in engine.files
  {
    var build := BuildCommand(srcDir, lang, existing);
    var create := CreateCommand(cfg, srcDir, srcDirAbs, lang, build);
    var analyze := AnalyzeCommand(cfg, srcDir, lang, QuerySuite(cfg.repoPath, lang, existing));
    var fallback := FallbackCommand(cfg, srcDir, lang);
    r := Invoke(engine, create, build.Some?, analyze, fallback, ResultPath(cfg, srcDir, lang));
  }

  /** Running the first invocation, then the rest. */
  lemma WrittenSplit(engine: Engine, files: map<string, Json>, from: nat, count: nat)
    requires count >= 1
    ensures engine.Written(files, from, count) == engine.Written(files + engine.writes(from), from + 1, count - 1)
  {
  }
}
