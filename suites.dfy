/**
 * Query-suite resolution (`get_query_suite`): the first suite file found
 * in a cloned copy of the engine's query repository, else a symbolic suite
 * name that the engine resolves (and may download) itself.
 */
module QuerySuites {
  import opened Wrappers
  import opened Paths
  import opened Languages

  /** The file name of a language's security-and-quality suite. */
  function SecurityAndQualityFile(lang: Language): string {
    Name(lang) + "-security-and-quality.qls"
  }

  /** The file name of a language's code-scanning suite. */
  function CodeScanningFile(lang: Language): string {
    Name(lang) + "-code-scanning.qls"
  }

  /** The suite name the engine resolves by itself. */
  function SymbolicSuite(lang: Language): string {
    SecurityAndQualityFile(lang)
  }

  /** `<repo>/<lang>/ql/src/codeql-suites/<file>`. */
  function SuitePath(repo: string, lang: Language, file: string): string {
    JoinAll(repo, [Name(lang), "ql", "src", "codeql-suites", file])
  }

  /** The candidate suite files, in the order they are tried. */
  function Candidates(repo: string, lang: Language): (c: seq<string>)
    ensures |c| == 2
    ensures c[0] == SuitePath(repo, lang, SecurityAndQualityFile(lang))
    ensures c[1] == SuitePath(repo, lang, CodeScanningFile(lang))
  {
    [ SuitePath(repo, lang, SecurityAndQualityFile(lang)),
      SuitePath(repo, lang, CodeScanningFile(lang)) ]
  }

  /** The position of the first candidate present in `existing`, if any. */
  function FirstExisting(candidates: seq<string>, existing: set<string>): (r: Option<nat>)
    ensures r.Some? ==> r.value < |candidates| && candidates[r.value] in existing
    ensures r.Some? ==> forall j :: 0 <= j < r.value ==> candidates[j] !in existing
    ensures r.None? ==> forall j :: 0 <= j < |candidates| ==> candidates[j] !in existing
  {
    if candidates == [] then None
    else if candidates[0] in existing then Some(0)
    else match FirstExisting(candidates[1..], existing)
      case Some(k) => Some(k + 1)
      case None => None
  }

  /** A found path is handed on wrapped in double quotes. */
  function Quoted(path: string): string {
    "\"" + path + "\""
  }

  /**
   * `get_query_suite(lang)`, with the clone's location `repo` and
   * `os.path.exists` read off `existing`: the candidates are searched only
   * when the clone exists; security-and-quality is preferred to
   * code-scanning; anything else yields the symbolic name.
   */
  function QuerySuite(repo: string, lang: Language, existing: set<string>): (s: string)
    ensures repo !in existing ==> s == SymbolicSuite(lang)
    ensures repo in existing && Candidates(repo, lang)[0] in existing ==>
      s == Quoted(Candidates(repo, lang)[0])
    ensures repo in existing && Candidates(repo, lang)[0] !in existing && Candidates(repo, lang)[1] in existing ==>
      s == Quoted(Candidates(repo, lang)[1])
    ensures repo in existing && Candidates(repo, lang)[0] !in existing && Candidates(repo, lang)[1] !in existing ==>
      s == SymbolicSuite(lang)
  {
    if repo in existing then
      var c := Candidates(repo, lang);
      match FirstExisting(c, existing)
      case Some(i) => Quoted(c[i])
      case None => SymbolicSuite(lang)
    else SymbolicSuite(lang)
  }
}
