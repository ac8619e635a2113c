# CodeQL scan orchestrator: a verified model of its decision logic

`app.py` is a small web service. It takes an uploaded source tree, guesses
the tree's programming language and drives the CodeQL command-line engine
over it: it creates a database, analyses it with a query suite, and flattens
the resulting SARIF report into table rows. This project models the five
pieces of decision logic underneath the HTTP and process plumbing, and
proves what they promise:

- **Language detection** (`detect_language`) is in `languages.dfy`.
  - The histogram loop is an imperative method, and so is the `max` over the histogram.
  - Both are proved against reference functions: counts per language, and the position of each language's first file.
- **Build-command choice** (`get_build_command`) is in `build.dfy`.
- **Query-suite resolution** (`get_query_suite`) is in `suites.dfy`.
- **Engine invocation** (`run_codeql_analysis`) is in `invoker.dfy`.
  - The engine is an `Engine` object. Its n-th invocation ends with a given outcome (an exit code, a timeout or an exception). It keeps a log of the command lines it receives and a map of the documents in the result directory.
  - The method that drives it is proved against a reference trace of commands and outcome.
- **SARIF normalization** (`parse_sarif`) is in `sarif.dfy`.
  - It works over a JSON value datatype (`json.dfy`), as an imperative method with the source's nested loops.
  - It is proved against a functional reading.
  - That reading is in turn proved to agree with a typed model of the SARIF 2.1.0 log format (OASIS SARIF 2.1.0, sections 3.13, 3.14 and 3.27 to 3.30): one finding per result, in document order, with the documented defaults.

`paths.dfy` supplies the parts of Python's POSIX `os.path` and `str` that
the logic relies on: `rfind`, `join`, `basename`, `splitext`, `lower` and
`str(int)`. `wrappers.dfy` holds `Option` and `Result`. Existence checks
(`os.path.exists`) are read off a set `existing` of paths present on disk.

## Model

| member | source | states |
|---|---|---|
| Paths.LastIndexOf | app.py:52 | the index of the last occurrence of a character, or -1: that position holds the character and none after it does |
| Paths.LastIndexOfAppend | app.py:52 | proof step: appending text without the character leaves its last occurrence unchanged |
| Paths.Join | app.py:109 | POSIX `os.path.join`: an absolute second part replaces the first; otherwise the result is the first part, then exactly one '/' when the first part is non-empty and does not end in '/' (none otherwise), then the second part |
| Paths.JoinAll | app.py:96-97 | `os.path.join` over several parts, one `Join` at a time; `SuitePath` is built with it |
| Paths.Basename | app.py:142 | `os.path.basename`: the suffix of the path right after its last '/', the whole path when it has none; it holds no '/' |
| Paths.BasenameOfJoin | app.py:142 | a name without '/' is the base name of itself joined below any directory |
| Paths.NoneAfterLast | app.py:52 | proof step: no occurrence of a character lies after its last occurrence |
| Paths.ExtensionAt | app.py:52 | the extension cut at given positions of the last '/' and the last '.'; `Extension` and `ExtensionAtLower` state what it yields |
| Paths.ExtensionWitness | app.py:52 | proof step: a '.' after a non-dot of the last component witnesses a non-empty extension |
| Paths.WitnessGivesExtension | app.py:52 | proof step: given such a witness, the last '.' lies after a non-dot of the last component |
| Paths.ExtensionAtNonEmpty | app.py:52 | the extension is non-empty exactly when the last component holds a '.' after some character other than '.' |
| Paths.Extension | app.py:52 | `os.path.splitext(p)[1]`: non-empty exactly when the last path component holds a '.' preceded in that component by some character other than '.'; then the suffix of `p` from its last '.', holding no other '.' and no '/' |
| Paths.Lower | app.py:52 | `str.lower` keeps the length and lowers each character in place |
| Paths.LowerTwice | app.py:52 | lowering is idempotent |
| Paths.LastIndexOfLower | app.py:52 | lowering moves no '/' or '.' |
| Paths.LowerSlice | app.py:52 | proof step: lowering a slice equals slicing the lowered text |
| Paths.HasNonDotLower | app.py:52 | proof step: lowering neither creates nor removes a character other than '.' |
| Paths.ExtensionAtLower | app.py:52 | lowering commutes with cutting the extension at given separator and dot positions |
| Paths.ExtensionOfLower | app.py:52 | the extension of the lowered path is the lowered extension |
| Paths.DigitsValue | app.py:188 | the number a string of decimal digits denotes, most significant first: the reference `NatToString` and `IntToString` are proved against |
| Paths.NatToString | app.py:188 | `str(n)` for n >= 0: decimal digits, without a leading zero, whose value (`DigitsValue`) is n |
| Paths.IntToString | app.py:188 | `str(n)`: a '-' exactly when n < 0, then decimal digits without a leading zero whose value (`DigitsValue`) is the magnitude of n |
| Paths.LowerChar | app.py:52 | one character of `str.lower` on ASCII letters; `Lower` and `LowerTwice` state what it does to a string |
| Languages.Name | app.py:54-60 | the language names the table maps to; `ExtensionTable` states each entry with it |
| Languages.ExtensionTable | app.py:53-61 | the extension table: `.c .cpp .h .cc` and only they give cpp; `.js .jsx .ts .tsx` and only they give javascript; one extension each for the rest |
| Languages.LanguageOfExtension | app.py:53-61 | the extension table; `ExtensionTable` states it in both directions |
| Languages.LanguageOf | app.py:52-63 | a file counts towards the table entry of its lower-cased extension; `LanguageOfIgnoresCase` and `SameUpToCaseSameLanguage` state that case does not matter |
| Languages.LanguageOfIgnoresCase | app.py:52-63 | a path and its lower-cased form count towards the same language |
| Languages.SameUpToCaseSameLanguage | app.py:52-63 | paths that are equal up to letter case count towards the same language, so `.JAVA` counts as java |
| Languages.Classified | app.py:51-63 | one tag per file, each being the file's table entry |
| Languages.FirstIndex | app.py:51-64 | the position of a language's first file, or the list's length when it has none; `FirstIndexIsFirst` proves this meaning |
| Languages.Count | app.py:62-64 | a language's file count; `CountPositive`, `BuildHistogram` and `DetectLanguage` state it against the histogram |
| Languages.Seen | app.py:62-64 | the dict's key order; `SeenHasLanguagesWithFiles` and `SeenIsOrderedByFirstFile` state what it holds and in which order |
| Languages.FirstIndexIsFirst | app.py:51-64 | `FirstIndex` finds a file of the language, and no earlier one; it finds one exactly when the language has files |
| Languages.CountPositive | app.py:62-64 | a language has a positive count exactly when some file is tagged with it |
| Languages.SeenHasLanguagesWithFiles | app.py:62-64 | the dict's keys are exactly the languages with files |
| Languages.SeenIsOrderedByFirstFile | app.py:62-64 | the dict's insertion order is the order of each language's first file |
| Languages.HistogramStep | app.py:62-64 | proof step: counting one more file keeps the dict's key order and counts up to date |
| Languages.BuildHistogram | app.py:50-64 | the histogram loop yields the languages with files, in order of first file, each with its file count |
| Languages.FirstMaximum | app.py:68 | `max(..., key=count)`: an entry no other entry exceeds, and the first such entry |
| Languages.DetectLanguage | app.py:49-68 | no language exactly when no file is mapped; otherwise a language with files and the highest count, and among equal counts the one whose first file comes earliest |
| BuildStrategy.BuildCommand | app.py:70-82 | a build command exactly for java: Maven iff `pom.xml` exists, else Gradle iff `gradlew` exists, else the `javac` fallback |
| BuildStrategy.BuildCommandDependsOnlyOnManifests | app.py:74-81 | the choice depends on the two manifest checks alone |
| QuerySuites.SecurityAndQualityFile | app.py:97-106 | the file name `<lang>-security-and-quality.qls`; `Candidates` and `QuerySuite` state where it is used |
| QuerySuites.CodeScanningFile | app.py:98-156 | the file name `<lang>-code-scanning.qls`, shared by the second candidate and the fallback command; `Candidates` and `ScanPolicy` state where it is used |
| QuerySuites.SymbolicSuite | app.py:106 | `<lang>-security-and-quality.qls`, left for the engine to resolve; `QuerySuite` states when it is used |
| QuerySuites.SuitePath | app.py:96-97 | `<repo>/<lang>/ql/src/codeql-suites/<file>`; `Candidates` states the two files |
| QuerySuites.Quoted | app.py:102 | a path wrapped in double quotes; `QuerySuite` states when a path is returned quoted |
| QuerySuites.Candidates | app.py:95-98 | the two candidate files, in the order tried: `<lang>-security-and-quality.qls`, then `<lang>-code-scanning.qls`, both under `<repo>/<lang>/ql/src/codeql-suites` |
| QuerySuites.FirstExisting | app.py:100-102 | the first existing candidate, with none existing before it; none when no candidate exists |
| QuerySuites.QuerySuite | app.py:84-106 | without the clone, the symbolic suite; with it, the quoted security-and-quality file if present, else the quoted code-scanning file if present, else the symbolic suite |
| JsonValues.LastKeyIndex | app.py:171 | the position of the last member with a key, none after it having that key |
| JsonValues.Lookup | app.py:171 | absent exactly when no member has the key; otherwise the value of the last member with that key, as decoding keeps it |
| JsonValues.LastKeyIndexAppend | app.py:171 | proof step: the last member with a key lies in an appended part if that part has the key at all |
| JsonValues.LookupAppend | app.py:171 | a later member wins a lookup |
| JsonValues.LookupInFour | app.py:171 | proof step: a lookup in four member lists consults them from the last to the first |
| JsonValues.Get | app.py:173-193 | `dict.get(key, default)`: fails exactly on a non-object; the default when the key is missing; the member's value otherwise |
| JsonValues.Truthy | app.py:182 | Python truth testing (also app.py:186): null, false, zero and empty containers are false; `Elements` relates it to iteration |
| JsonValues.Elements | app.py:173-174 | what `for` visits: a list's items; a dict's distinct keys in the order of their first member (`DistinctKeys`); a string's one-character strings; fails on any other value; empty exactly for a falsy value |
| JsonValues.FirstKeyIndex | app.py:171 | the position of the first member with a key, none earlier having it, or the member count when there is none |
| JsonValues.DistinctKeys | app.py:171-174 | the keys of the dict decoding builds; `DistinctKeysAreTheKeys` and `DistinctKeysInFirstOrder` state its meaning |
| JsonValues.DistinctKeysAreTheKeys | app.py:171-174 | the dict holds exactly the keys of the members |
| JsonValues.DistinctKeysInFirstOrder | app.py:171-174 | the dict's keys come in strictly increasing order of their first member, so none repeats |
| JsonValues.Str | app.py:188 | `str()` of a string is the string itself; of an integer its decimal form |
| JsonValues.Repr | app.py:188 | `repr` of a value that is not a string, which `str()` falls back to: an object is printed as the dict decoding builds, each distinct key once in the order of its first member with the value of its last member; strings inside are not escaped (see Left out) |
| JsonValues.ReprKeepsLastDuplicate | app.py:171-188 | `str()` of the object decoded from `{"x": 1, "x": 2}` is `{'x': 2}` |
| Sarif.Converted | app.py:174-203 | the conversion of each entry, position by position |
| Sarif.Collect | app.py:169-207 | no findings when any conversion raises; otherwise every converted finding, in order |
| Sarif.ResultsFindings | app.py:174-203 | a run's findings: absent exactly when some entry raises, otherwise one finding per entry, in order |
| Sarif.RunEntries | app.py:174 | the result entries one run's `for` loop visits; `RunsFindingsPerEntry` states the findings against them |
| Sarif.RunFindings | app.py:174-203 | the findings of one run; `RunsFindings` and `RunsFindingsPerEntry` state them |
| Sarif.RunsFindings | app.py:173-203 | the findings of many runs are absent exactly when some run raises |
| Sarif.DocumentRuns | app.py:173 | the runs the outer `for` loop visits; `OneFindingPerResultEntry` states the findings over them |
| Sarif.DocumentFindings | app.py:172-204 | a decoded document's findings; `OneFindingPerResultEntry` and `DocumentFindingsOfRuns` state them |
| Sarif.RunsEntries | app.py:173-174 | every result entry of every run, in document order; `RunsFindingsPerEntry` matches the findings against it |
| Sarif.DocumentEntries | app.py:172-174 | the flat list of a document's result entries; `OneFindingPerResultEntry` gives one finding per entry |
| Sarif.ParseSarif | app.py:168-207 | the nested loops return exactly the normalized findings of the decoded document, and `[]` when reading or decoding raised |
| Sarif.ConvertEntries | app.py:174-203 | the inner loop yields exactly a run's findings, or nothing once an entry raises |
| Sarif.AllConvertAppend | app.py:174-203 | proof step: every entry of a concatenation converts iff every entry of both parts does |
| Sarif.PerEntryAppend | app.py:197-203 | proof step: findings matching their entries one for one still match after concatenation |
| Sarif.RunsFindingsPerEntry | app.py:173-203 | over runs, findings exist exactly when navigation succeeds and every entry converts, and they then match the entries one for one |
| Sarif.OneFindingPerResultEntry | app.py:168-207 | exactly one finding per result entry of every run, in document order; no findings at all when anything raises |
| Sarif.EncodeLocations | app.py:181-183 | encoding keeps every location in place |
| Sarif.EncodeResults | app.py:174 | encoding keeps every result in place |
| Sarif.EncodeRuns | app.py:173 | encoding keeps every run in place |
| Sarif.ExpectedFinding | app.py:175-203 | the finding a typed SARIF result should give, with the documented defaults; `ConvertEncodedResult` proves the normalizer gives it |
| Sarif.ExpectedFindings | app.py:173-203 | the expected findings of a typed log, runs in order and results in order; `NormalizeEncodedLog` proves the normalizer returns them |
| Sarif.ExpectedOfResults | app.py:174-203 | one expected finding per typed result, in order |
| Sarif.LookupMember | app.py:171 | proof step: a single optional member holds only its own key |
| Sarif.LookupMembers | app.py:175-193 | each of four distinct keys finds its own member's value |
| Sarif.ArtifactOfEncoded | app.py:184 | `artifactLocation` of an encoded physical location, `{}` when absent |
| Sarif.RegionOfEncoded | app.py:185 | `region` of an encoded physical location, `{}` when absent |
| Sarif.PhysicalPlaceOfEncoded | app.py:183-188 | the file is the URI and the line `str(startLine)`, or "" when the line is absent, when the URI is non-empty; "-" and "-" otherwise |
| Sarif.PhysicalPlaceFromParts | app.py:183-188 | proof step: the place is assembled from the four lookups |
| Sarif.PlaceOfEncodedLocations | app.py:179-188 | only the first location is read, with the same file and line rule |
| Sarif.ConvertFromParts | app.py:175-203 | proof step: a finding is assembled from the lookups of its fields |
| Sarif.EncodedResultMembers | app.py:175-193 | the defaults: rule "unknown", message `{}`, level "warning", no locations |
| Sarif.ConvertEncodedResult | app.py:174-203 | every encoded result becomes exactly its expected finding |
| Sarif.RunOfEncoded | app.py:174-203 | an encoded run yields its results' expected findings, in order |
| Sarif.RunsOfEncoded | app.py:173-203 | encoded runs yield the expected findings of all their results, runs in order |
| Sarif.DocumentFindingsOfRuns | app.py:173 | proof step: a document's findings are those of its runs |
| Sarif.NormalizeEncodedLog | app.py:168-207 | the normalizer agrees with the typed reading on every well-formed log |
| Sarif.EmptyDocumentHasNoFindings | app.py:161-164 | the synthesized `{"runs": []}` report yields no findings |
| Sarif.SqlInjectionExample | app.py:168-207 | a SQL-injection alert at `App.java` line 42 becomes one fully populated finding |
| Sarif.SingleRunFindings | app.py:173-174 | proof step: one run with one result yields that result's finding alone |
| Sarif.SqlInjectionFinding | app.py:175-203 | the example alert's expected finding, with line "42" |
| Sarif.First | app.py:183 | `locations[0]`: raises on an empty or unindexable value; `PlaceOfEncodedLocations` states that only the first location is read |
| Sarif.PhysicalPlace | app.py:183-188 | the file and line shown for a `physicalLocation`; `PhysicalPlaceOfEncoded` states them |
| Sarif.Place | app.py:179-188 | the "-" sentinels for falsy locations, else the first location's place; `PlaceOfEncodedLocations` states it |
| Sarif.Convert | app.py:175-203 | one finding per result entry with the documented defaults; `ConvertEncodedResult` states it against `ExpectedFinding` |
| Sarif.Normalized | app.py:168-207 | what `parse_sarif` returns; `ParseSarif`, `OneFindingPerResultEntry` and `NormalizeEncodedLog` state it |
| EngineInvoker.Engine.constructor | app.py:34-47 | a fresh engine has an empty log and the given result directory |
| EngineInvoker.Engine.Code | app.py:43-47 | the exit code of the n-th invocation; `RunCommand` states that the n-th invocation returns it |
| EngineInvoker.Engine.Written | app.py:149-164 | under the model's assumption that an invocation only adds or overwrites documents, invocations never remove a document from the result directory |
| EngineInvoker.Engine.RunCommand | app.py:34-47 | one invocation: the command is logged, its exit code is that of the next outcome, and its documents are written |
| EngineInvoker.ExitCode | app.py:44-47 | an outcome's exit code: -2 for a timeout, -1 for an exception; `TimeoutIsFailure` states which outcomes succeed |
| EngineInvoker.JoinWords | app.py:128 | `" ".join(words)`; `CreateCommandWithBuild` states what an extra word adds |
| EngineInvoker.DatabaseDir | app.py:109 | `<src_dir>/codeql_db`; `ScanPolicy` states the commands it appears in |
| EngineInvoker.BaseCreateWords | app.py:116-121 | the seven words of the create command; `BaseWordsHaveNoCommandFlag` and `CreateWords` state them |
| EngineInvoker.CreateCommand | app.py:128 | the create command line; `CreateCommandWithBuild` and `ScanPolicy` state it |
| EngineInvoker.ResultFileName | app.py:142 | `result_<basename>_<lang>.sarif`; `ScansOfOneLanguageShareAReport` states it for an upload |
| EngineInvoker.ResultPath | app.py:143 | the report path in the result directory; `ScanPolicy` states that success yields it |
| EngineInvoker.AnalyzeCommand | app.py:149 | the analyze command with the resolved suite, quoted; `ScanPolicy` and `LocalSuiteIsQuotedTwice` state it |
| EngineInvoker.AnalyzeHead | app.py:149-156 | the words both analyze commands begin with, up to the suite; `LocalSuiteIsQuotedTwice` states a command with it |
| EngineInvoker.AnalyzeTail | app.py:149-156 | the output format and report path both analyze commands end with; `LocalSuiteIsQuotedTwice` states a command with it |
| EngineInvoker.FallbackCommand | app.py:156 | the retry with the code-scanning suite, unquoted; `ScanPolicy` states when it runs |
| EngineInvoker.AnalysisCommands | app.py:152-157 | the analyze commands run: the fallback only after a failing first analysis; `ScanPolicy` and `AnalyzeWithFallback` state it |
| EngineInvoker.AnalysisSucceeds | app.py:152-159 | the analysis ends well exactly when the first analysis or the fallback exits 0; `AnalyzeWithFallback` states it |
| EngineInvoker.Steps | app.py:128-166 | the control flow over assembled command lines; `ScanPolicy` states its policy and `Invoke` is proved against it |
| EngineInvoker.ScanTrace | app.py:108-166 | the commands and outcome of a scan; `ScanPolicy` states it and `RunCodeqlAnalysis` is proved against it |
| EngineInvoker.NotCommandWord | app.py:116-126 | proof step: a word that differs from `--command=` in its first or third character does not start with it |
| EngineInvoker.NotCommandWordWithPrefix | app.py:116-120 | proof step: a word whose fixed prefix rules out `--command=` does not start with it |
| EngineInvoker.NoFlagInSevenWords | app.py:116-121 | proof step: seven words, none starting with the flag, keep that property in a list |
| EngineInvoker.BaseWordsHaveNoCommandFlag | app.py:116-121 | none of the seven base words of the create command is a `--command=` argument |
| EngineInvoker.CreateWords | app.py:116-126 | the create command has a `--command=` argument exactly when there is a build command, and that argument is last and holds the quoted build command |
| EngineInvoker.CreateCommandWithBuild | app.py:123-128 | attaching a build command appends exactly one word to the plain create command line |
| EngineInvoker.ScansOfOneLanguageShareAReport | app.py:142-143 | every upload scans `<temp dir>/src`, so every scan of a language writes `result_src_<lang>.sarif` in the same place |
| EngineInvoker.QuotedTwice | app.py:102 | proof step: quoting a quoted string puts two quotes on each side |
| EngineInvoker.LocalSuiteIsQuotedTwice | app.py:102 | a suite file found in the clone comes back from `get_query_suite` already quoted and is quoted again by the analyze command, so on that command line the path itself stands between two empty quoted strings, outside any quotes of its own |
| EngineInvoker.ScanPolicy | app.py:128-166 | 1 to 3 invocations: create first; fatal exactly when creation fails for a language other than java; the analysis is retried with the code-scanning suite exactly when it fails; fatal exactly when the retry fails too; success yields the report path |
| EngineInvoker.OnlySuccessIsDistinguished | app.py:44-47 | a timeout, an exception and a failing exit code steer the scan identically |
| EngineInvoker.TimeoutIsFailure | app.py:44-47 | an outcome counts as success exactly when the process ran to completion with exit code 0; a timeout (-2) or an exception (-1) never does |
| EngineInvoker.AnalyzeWithFallback | app.py:149-159 | one analyze invocation, and the fallback only when it fails; success iff either exits 0 |
| EngineInvoker.Invoke | app.py:128-166 | the invocation sequence logs exactly the trace's commands and ends with its outcome; on success a report exists at the returned path, `{"runs": []}` when the engine left none |
| EngineInvoker.RunCodeqlAnalysis | app.py:108-166 | `run_codeql_analysis` hands the engine exactly the scan trace's command lines, ends as the trace says, and on success leaves a report at the returned path |
| EngineInvoker.WrittenSplit | app.py:131-157 | proof step: the result directory after several invocations is that after the first, then the rest |

## Left out

- HTTP routes, response building, CORS and server start (app.py:210-296) are plumbing. The upload handler `analyze` (app.py:231-289) is not modelled. It rejects a request without a file or without a file name with 400 (app.py:233-237). It unpacks the upload only when its lower-cased name ends in `.zip`, `.tar` or `.gz`, and ignores a failed unpack (app.py:249-254). It answers 400 when no language is detected and picks its message by the finding count. It reports any exception as a 500 carrying `str(e)`, a scan's `ScanError` included (app.py:286-289). Its `src_dir` (app.py:241) is used by `ScansOfOneLanguageShareAReport`.
- Saving the upload, unpacking archives, `os.walk` and temporary directories (app.py:240-260) are file-system I/O. The flattened file list is an input sequence.
- `subprocess.run`, the shell and its quoting rules, the 600-second timer, environment copying and the captured stdout/stderr (app.py:34-47) are foreign calls. Only the exit-code contract is kept: 0, -2 on timeout, -1 on exception, anything else a failure.
- The texts of the raised exceptions and every `print` are left out. The model keeps which error was raised, not its message.
- Reading and decoding the report with `json.load`, and writing it with `json.dump`, are library calls. `ParseSarif` takes the decoded document, or `None` when reading or decoding raised. Writing is an update of the engine's result-directory map.
- JSON numbers are integers. Fractions and exponents, and `str()` of a float, are not modelled.
- JsonValues.Repr: strings inside containers are printed between single quotes without escaping. Python escapes special characters and switches to double quotes for a string holding a single quote and no double quote: `repr("it's")` is `"it's"`, where the model prints `'it's'`.
- Global configuration (`shutil.which`, the home directory, `os.makedirs`; app.py:12-28) is a `Config` value.
- `os.path.abspath(src_dir)` depends on the working directory, so it is a parameter, `srcDirAbs`.
- EngineInvoker.Engine.Written: the engine is assumed never to delete a document from the result directory; each invocation only adds or overwrites the documents its `writes` entry names. `app.py` promises nothing about what the engine does to that directory.
- `existing` is one snapshot of the disk. Database creation is not modelled as changing which manifest or suite files exist.
- Paths.Lower: `str.lower` is modelled on ASCII letters only. The only other characters whose lower case is ASCII are KELVIN SIGN (lowered to 'k') and U+0130 (lowered to "i" plus a combining dot). Neither 'k' nor 'i' occurs in any extension of the table, so classification agrees.
- A Dafny `char` is a Unicode scalar value, so lone surrogates cannot be represented. Python holds them in file names that are not valid UTF-8, as `os.walk` returns them, and in report strings that `json.load` decodes from escapes such as `\ud800`; neither is modelled.
- Database creation is tried once, with no retry (app.py:131). A failure is fatal only when no build command was attached (app.py:135-139), and only java gets a build command (app.py:74-82); for java a failed creation is ignored and the analysis runs anyway. The model states exactly this.

