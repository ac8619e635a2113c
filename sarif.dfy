/**
 * SARIF normalization (`parse_sarif`): every entry of every run's
 * `results` becomes one flat finding, in document order; any Python
 * exception along the way (a value of the wrong kind where a dict, a list
 * or an index is expected) discards everything and yields no findings.
 */
module Sarif {
  import opened Wrappers
  import opened Paths
  import opened JsonValues

  /** One row of the findings table: the five keys the source emits. */
  datatype Finding = Finding(rule: Json, level: Json, file: Json, line: string, message: Json)

  const NoFile := JStr("-")
  const NoLine := "-"

  /** `v[0]`: `None` stands for the exception raised on a value that cannot be indexed by 0. */
  function First(v: Json): Option<Json> {
    match v
    case JArr(items) => if items != [] then Some(items[0]) else None
    case JStr(s) => if s != [] then Some(JStr([s[0]])) else None
    case _ => None
  }

  /**
   * The displayed file and line of a result with the given `locations`
   * value: taken from the first location only, and only when its
   * artifact URI is truthy; otherwise the "-" sentinels.
   */
  function Place(locations: Json): Option<(Json, string)> {
    if !Truthy(locations) then Some((NoFile, NoLine))
    else
      var first :- First(locations);
      var physical :- Get(first, "physicalLocation", JObj([]));
      PhysicalPlace(physical)
  }

  /** The file and line shown for a `physicalLocation` value. */
  function PhysicalPlace(physical: Json): Option<(Json, string)> {
    var artifact :- Get(physical, "artifactLocation", JObj([]));
    var uri :- Get(artifact, "uri", JStr(""));
    var region :- Get(physical, "region", JObj([]));
    var startLine :- Get(region, "startLine", JStr(""));
    if Truthy(uri) then Some((uri, Str(startLine))) else Some((NoFile, NoLine))
  }

  /** The finding for one raw result entry, or `None` where the source raises. */
  function Convert(r: Json): Option<Finding> {
    var ruleId :- Get(r, "ruleId", JStr("unknown"));
    var message :- Get(r, "message", JObj([]));
    var text :- Get(message, "text", JStr(""));
    var locations :- Get(r, "locations", JArr([]));
    var place :- Place(locations);
    var level :- Get(r, "level", JStr("warning"));
    Some(Finding(ruleId, level, place.0, place.1, text))
  }

  /** What converting each entry on its own gives. */
  function Converted(entries: seq<Json>): (c: seq<Option<Finding>>)
    ensures |c| == |entries| && forall k :: 0 <= k < |entries| ==> c[k] == Convert(entries[k])
  {
    seq(|entries|, k requires 0 <= k < |entries| => Convert(entries[k]))
  }

  /** All the values, in order, if every one is present; `None` as soon as one is missing. */
  function Collect(opts: seq<Option<Finding>>): (r: Option<seq<Finding>>)
    ensures r.None? <==> exists k :: 0 <= k < |opts| && opts[k].None?
    ensures r.Some? ==> |r.value| == |opts| && forall k :: 0 <= k < |opts| ==> opts[k] == Some(r.value[k])
  {
    if opts == [] then Some([])
    else
      var p := opts[..|opts| - 1];
      assert forall k :: 0 <= k < |p| ==> p[k] == opts[k];
      var done := Collect(p);
      var last := opts[|opts| - 1];
      if done.None? then None
      else if last.None? then None
      else
        var r := done.value + [last.value];
        assert forall k :: 0 <= k < |p| ==> opts[k] == Some(r[k]);
        Some(r)
  }

  /** The findings of a run's result entries: one per entry, in order, unless some entry raises. */
  function ResultsFindings(entries: seq<Json>): (r: Option<seq<Finding>>)
    ensures r.None? <==> exists k :: 0 <= k < |entries| && Convert(entries[k]).None?
    ensures r.Some? ==> |r.value| == |entries|
    ensures r.Some? ==> forall k :: 0 <= k < |entries| ==> Convert(entries[k]) == Some(r.value[k])
  {
    Collect(Converted(entries))
  }

  /** The result entries of one run, as `run.get("results", [])` and a `for` loop see them. */
  function RunEntries(run: Json): Option<seq<Json>> {
    var results :- Get(run, "results", JArr([]));
    Elements(results)
  }

  /** The findings of one run. */
  function RunFindings(run: Json): Option<seq<Finding>> {
    var entries :- RunEntries(run);
    ResultsFindings(entries)
  }

  /** The findings of a sequence of runs, concatenated in order, unless some run raises. */
  function RunsFindings(runs: seq<Json>): (r: Option<seq<Finding>>)
    ensures r.None? <==> exists k :: 0 <= k < |runs| && RunFindings(runs[k]).None?
  {
    if runs == [] then Some([])
    else
      var p := runs[..|runs| - 1];
      assert forall k :: 0 <= k < |p| ==> p[k] == runs[k];
      var done :- RunsFindings(p);
      var more :- RunFindings(runs[|runs| - 1]);
      Some(done + more)
  }

  /** The runs of a document, as `data.get("runs", [])` and a `for` loop see them. */
  function DocumentRuns(data: Json): Option<seq<Json>> {
    var runs :- Get(data, "runs", JArr([]));
    Elements(runs)
  }

  /** The findings of a decoded document, or `None` where the source raises. */
  function DocumentFindings(data: Json): Option<seq<Finding>> {
    var runs :- DocumentRuns(data);
    RunsFindings(runs)
  }

  /**
   * What `parse_sarif` returns for a file: `doc` is the decoded document,
   * or `None` when opening or decoding the file raised.
   */
  function Normalized(doc: Option<Json>): seq<Finding> {
    match doc
    case None => []
    case Some(data) => DocumentFindings(data).GetOr([])
  }

  /**
   * `parse_sarif`, with its nested loops over runs and their results; every
   * exception becomes an early return of the empty list.
   */
  method ParseSarif(doc: Option<Json>) returns (findings: seq<Finding>)
    ensures findings == Normalized(doc)
  {
    if doc.None? {
      return [];
    }
    var data := doc.value;
    var runsValue := Get(data, "runs", JArr([]));
    if runsValue.None? {
      return [];
    }
    var runs := Elements(runsValue.value);
    if runs.None? {
      return [];
    }
    var results: seq<Finding> := [];
    var i := 0;
    while i < |runs.value|
      invariant i <= |runs.value|
      invariant RunsFindings(runs.value[..i]) == Some(results)
    {
      var run := runs.value[i];
      assert runs.value[..i + 1][..i] == runs.value[..i];
      var resultsValue := Get(run, "results", JArr([]));
      if resultsValue.None? {
        return [];
      }
      var entries := Elements(resultsValue.value);
      if entries.None? {
        return [];
      }
      var found := ConvertEntries(entries.value);
      if found.None? {
        return [];
      }
      results := results + found.value;
      i := i + 1;
    }
    assert runs.value[..i] == runs.value;
    return results;
  }

  /**
   * The inner loop of `parse_sarif` over one run's result entries: the
   * findings of all of them, or `None` as soon as one raises.
   */
  method ConvertEntries(entries: seq<Json>) returns (found: Option<seq<Finding>>)
    ensures found == ResultsFindings(entries)
  {
    ghost var opts := Converted(entries);
    var done: seq<Finding> := [];
    var j := 0;
    while j < |entries|
      invariant j <= |entries|
      invariant Collect(opts[..j]) == Some(done)
    {
      assert opts[..j + 1][..j] == opts[..j];
      var finding := Convert(entries[j]);
      if finding.None? {
        return None;
      }
      done := done + [finding.value];
      j := j + 1;
    }
    assert opts[..j] == opts;
    return Some(done);
  }

  /** Every result entry of every run, in document order, or `None` where navigating the runs raises. */
  function RunsEntries(runs: seq<Json>): Option<seq<Json>> {
    if runs == [] then Some([])
    else
      var done :- RunsEntries(runs[..|runs| - 1]);
      var more :- RunEntries(runs[|runs| - 1]);
      Some(done + more)
  }

  /** The flat list of result entries of a decoded document. */
  function DocumentEntries(data: Json): Option<seq<Json>> {
    var runs :- DocumentRuns(data);
    RunsEntries(runs)
  }

  ghost predicate AllConvert(entries: seq<Json>) {
    forall k :: 0 <= k < |entries| ==> Convert(entries[k]).Some?
  }

  /** Every entry of `a + b` converts exactly when every entry of `a` and of `b` does. */
  lemma AllConvertAppend(a: seq<Json>, b: seq<Json>)
    ensures AllConvert(a + b) <==> AllConvert(a) && AllConvert(b)
  {
    assert forall k :: 0 <= k < |a| ==> (a + b)[k] == a[k];
    assert forall k :: 0 <= k < |b| ==> (a + b)[|a| + k] == b[k];
  }

  /** Findings that match their entries one for one still do after concatenation. */
  lemma PerEntryAppend(a: seq<Json>, b: seq<Json>, fa: seq<Finding>, fb: seq<Finding>)
    requires |fa| == |a| && forall k :: 0 <= k < |a| ==> Convert(a[k]) == Some(fa[k])
    requires |fb| == |b| && forall k :: 0 <= k < |b| ==> Convert(b[k]) == Some(fb[k])
    ensures |fa + fb| == |a + b| && forall k :: 0 <= k < |a + b| ==> Convert((a + b)[k]) == Some((fa + fb)[k])
  {
    forall k | 0 <= k < |a + b|
      ensures Convert((a + b)[k]) == Some((fa + fb)[k])
    {
      if k >= |a| {
        assert (a + b)[k] == b[k - |a|];
      }
    }
  }

  /**
   * Across runs, findings exist exactly when every run's entries can be
   * navigated and every entry converts, and then they match the entries
   * one for one.
   */
  lemma {:induction false} RunsFindingsPerEntry(runs: seq<Json>)
    ensures RunsFindings(runs).Some? <==> RunsEntries(runs).Some? && AllConvert(RunsEntries(runs).value)
    ensures RunsFindings(runs).Some? ==>
      |RunsFindings(runs).value| == |RunsEntries(runs).value| &&
      forall k :: 0 <= k < |RunsEntries(runs).value| ==>
        Convert(RunsEntries(runs).value[k]) == Some(RunsFindings(runs).value[k])
  {
    if runs != [] {
      var p := runs[..|runs| - 1];
      var last := runs[|runs| - 1];
      RunsFindingsPerEntry(p);
      assert RunsFindings(runs) == (
        if RunsFindings(p).Some? && RunFindings(last).Some? then Some(RunsFindings(p).value + RunFindings(last).value)
        else None);
      if RunsEntries(p).Some? && RunEntries(last).Some? {
        var ea, eb := RunsEntries(p).value, RunEntries(last).value;
        assert RunsEntries(runs) == Some(ea + eb);
        AllConvertAppend(ea, eb);
        assert RunFindings(last) == ResultsFindings(eb);
        if RunsFindings(runs).Some? {
          PerEntryAppend(ea, eb, RunsFindings(p).value, RunFindings(last).value);
        }
      }
    }
  }

  /**
   * `parse_sarif` emits exactly one finding per result entry of every run,
   * in document order, when no entry raises; when navigating the runs or
   * converting any single entry raises, it emits nothing at all.
   */
  lemma OneFindingPerResultEntry(data: Json)
    ensures DocumentEntries(data).Some? && AllConvert(DocumentEntries(data).value) ==>
      |Normalized(Some(data))| == |DocumentEntries(data).value| &&
      forall k :: 0 <= k < |DocumentEntries(data).value| ==>
        Convert(DocumentEntries(data).value[k]) == Some(Normalized(Some(data))[k])
    ensures !(DocumentEntries(data).Some? && AllConvert(DocumentEntries(data).value)) ==>
      Normalized(Some(data)) == []
  {
    if DocumentRuns(data).Some? {
      RunsFindingsPerEntry(DocumentRuns(data).value);
    }
  }

  // A typed view of the part of a SARIF 2.1.0 log (OASIS, sections 3.13,
  // 3.14, 3.27 to 3.30) that the normalizer reads, and its JSON encoding.

  /** `physicalLocation`: `artifactLocation.uri` and `region.startLine`, each possibly absent. */
  datatype PhysicalLocation = PhysicalLocation(uri: Option<string>, startLine: Option<int>)
  datatype Location = Location(physical: Option<PhysicalLocation>)
  datatype SarifResult = SarifResult(ruleId: Option<string>, text: Option<string>, level: Option<string>, locations: seq<Location>)
  datatype Run = Run(results: seq<SarifResult>)
  datatype Log = Log(runs: seq<Run>)

  /** The member `key` when the value is present, nothing otherwise. */
  function Member(key: string, v: Option<Json>): seq<(string, Json)> {
    if v.Some? then [(key, v.value)] else []
  }

  function EncodePhysical(p: PhysicalLocation): Json {
    JObj(
      Member("artifactLocation", if p.uri.Some? then Some(JObj([("uri", JStr(p.uri.value))])) else None) +
      Member("region", if p.startLine.Some? then Some(JObj([("startLine", JInt(p.startLine.value))])) else None))
  }

  function EncodeLocation(l: Location): Json {
    JObj(Member("physicalLocation", if l.physical.Some? then Some(EncodePhysical(l.physical.value)) else None))
  }

  function EncodeLocations(locs: seq<Location>): (r: seq<Json>)
    ensures |r| == |locs| && forall k :: 0 <= k < |locs| ==> r[k] == EncodeLocation(locs[k])
  {
    seq(|locs|, k requires 0 <= k < |locs| => EncodeLocation(locs[k]))
  }

  function EncodeResult(r: SarifResult): Json {
    JObj(
      Member("ruleId", if r.ruleId.Some? then Some(JStr(r.ruleId.value)) else None) +
      Member("message", if r.text.Some? then Some(JObj([("text", JStr(r.text.value))])) else None) +
      Member("level", if r.level.Some? then Some(JStr(r.level.value)) else None) +
      Member("locations", if r.locations != [] then
        Some(JArr(EncodeLocations(r.locations)))
      else None))
  }

  function EncodeResults(results: seq<SarifResult>): (r: seq<Json>)
    ensures |r| == |results| && forall k :: 0 <= k < |results| ==> r[k] == EncodeResult(results[k])
  {
    seq(|results|, k requires 0 <= k < |results| => EncodeResult(results[k]))
  }

  function EncodeRun(run: Run): Json {
    JObj([("results", JArr(EncodeResults(run.results)))])
  }

  function EncodeRuns(runs: seq<Run>): (r: seq<Json>)
    ensures |r| == |runs| && forall k :: 0 <= k < |runs| ==> r[k] == EncodeRun(runs[k])
  {
    seq(|runs|, k requires 0 <= k < |runs| => EncodeRun(runs[k]))
  }

  function EncodeLog(log: Log): Json {
    JObj([("version", JStr("2.1.0")),
          ("runs", JArr(EncodeRuns(log.runs)))])
  }

  /**
   * The finding the normalizer is meant to produce for a typed result:
   * rule "unknown", level "warning" and message "" when absent; the first
   * location's URI and start line when that URI is non-empty (the line
   * empty when the start line is absent); "-" and "-" otherwise.
   */
  function ExpectedFinding(r: SarifResult): Finding {
    var located := r.locations != [] && r.locations[0].physical.Some? &&
      r.locations[0].physical.value.uri.Some? && r.locations[0].physical.value.uri.value != "";
    Finding(
      JStr(r.ruleId.GetOr("unknown")),
      JStr(r.level.GetOr("warning")),
      if located then JStr(r.locations[0].physical.value.uri.value) else NoFile,
      if !located then NoLine
      else if r.locations[0].physical.value.startLine.Some? then IntToString(r.locations[0].physical.value.startLine.value)
      else "",
      JStr(r.text.GetOr("")))
  }

  function ExpectedOfResults(results: seq<SarifResult>): (r: seq<Finding>)
    ensures |r| == |results| && forall k :: 0 <= k < |results| ==> r[k] == ExpectedFinding(results[k])
  {
    seq(|results|, k requires 0 <= k < |results| => ExpectedFinding(results[k]))
  }

  /** The expected findings of a typed log: runs in order, results in order. */
  function ExpectedFindings(runs: seq<Run>): seq<Finding> {
    if runs == [] then []
    else
      var last := runs[|runs| - 1];
      ExpectedFindings(runs[..|runs| - 1]) +
      ExpectedOfResults(last.results)
  }

  /** A single optional member holds a key only when it is that member's. */
  lemma LookupMember(k: string, v: Option<Json>, key: string)
    ensures Lookup(Member(k, v), key) == if k == key then v else None
  {
  }

  /** Looking up one of four distinct keys in four optional members finds that member's value. */
  lemma LookupMembers(k1: string, v1: Option<Json>, k2: string, v2: Option<Json>,
                      k3: string, v3: Option<Json>, k4: string, v4: Option<Json>)
    requires k1 != k2 && k1 != k3 && k1 != k4 && k2 != k3 && k2 != k4 && k3 != k4
    ensures var m := Member(k1, v1) + Member(k2, v2) + Member(k3, v3) + Member(k4, v4);
      Lookup(m, k1) == v1 && Lookup(m, k2) == v2 && Lookup(m, k3) == v3 && Lookup(m, k4) == v4
  {
    var m1, m2, m3, m4 := Member(k1, v1), Member(k2, v2), Member(k3, v3), Member(k4, v4);
    forall key | key in [k1, k2, k3, k4]
      ensures Lookup(m1, key) == (if k1 == key then v1 else None)
      ensures Lookup(m2, key) == (if k2 == key then v2 else None)
      ensures Lookup(m3, key) == (if k3 == key then v3 else None)
      ensures Lookup(m4, key) == (if k4 == key then v4 else None)
    {
      LookupMember(k1, v1, key);
      LookupMember(k2, v2, key);
      LookupMember(k3, v3, key);
      LookupMember(k4, v4, key);
    }
    LookupInFour(m1, m2, m3, m4, k1);
    LookupInFour(m1, m2, m3, m4, k2);
    LookupInFour(m1, m2, m3, m4, k3);
    LookupInFour(m1, m2, m3, m4, k4);
  }

  /** The `artifactLocation` member of an encoded physical location, `{}` when absent. */
  lemma ArtifactOfEncoded(p: PhysicalLocation)
    ensures Get(EncodePhysical(p), "artifactLocation", JObj([])) ==
      Some(if p.uri.Some? then JObj([("uri", JStr(p.uri.value))]) else JObj([]))
  {
    var art := Member("artifactLocation", if p.uri.Some? then Some(JObj([("uri", JStr(p.uri.value))])) else None);
    var reg := Member("region", if p.startLine.Some? then Some(JObj([("startLine", JInt(p.startLine.value))])) else None);
    LookupAppend(art, reg, "artifactLocation");
  }

  /** The `region` member of an encoded physical location, `{}` when absent. */
  lemma RegionOfEncoded(p: PhysicalLocation)
    ensures Get(EncodePhysical(p), "region", JObj([])) ==
      Some(if p.startLine.Some? then JObj([("startLine", JInt(p.startLine.value))]) else JObj([]))
  {
    var art := Member("artifactLocation", if p.uri.Some? then Some(JObj([("uri", JStr(p.uri.value))])) else None);
    var reg := Member("region", if p.startLine.Some? then Some(JObj([("startLine", JInt(p.startLine.value))])) else None);
    LookupAppend(art, reg, "region");
  }

  /** The file and line read off an encoded physical location. */
  lemma PhysicalPlaceOfEncoded(p: PhysicalLocation)
    ensures var located := p.uri.Some? && p.uri.value != "";
      PhysicalPlace(EncodePhysical(p)) == Some((
        if located then JStr(p.uri.value) else NoFile,
        if !located then NoLine else if p.startLine.Some? then IntToString(p.startLine.value) else ""))
  {
    var artifact := if p.uri.Some? then JObj([("uri", JStr(p.uri.value))]) else JObj([]);
    var uri := if p.uri.Some? then JStr(p.uri.value) else JStr("");
    var region := if p.startLine.Some? then JObj([("startLine", JInt(p.startLine.value))]) else JObj([]);
    var startLine := if p.startLine.Some? then JInt(p.startLine.value) else JStr("");
    ArtifactOfEncoded(p);
    RegionOfEncoded(p);
    assert Get(artifact, "uri", JStr("")) == Some(uri);
    assert Get(region, "startLine", JStr("")) == Some(startLine);
    PhysicalPlaceFromParts(EncodePhysical(p), artifact, uri, region, startLine);
    assert Truthy(uri) <==> p.uri.Some? && p.uri.value != "";
    assert Str(startLine) == if p.startLine.Some? then IntToString(p.startLine.value) else "";
  }

  /** `PhysicalPlace` assembles the values of its four lookups. */
  lemma PhysicalPlaceFromParts(physical: Json, artifact: Json, uri: Json, region: Json, startLine: Json)
    requires Get(physical, "artifactLocation", JObj([])) == Some(artifact)
    requires Get(artifact, "uri", JStr("")) == Some(uri)
    requires Get(physical, "region", JObj([])) == Some(region)
    requires Get(region, "startLine", JStr("")) == Some(startLine)
    ensures PhysicalPlace(physical) == if Truthy(uri) then Some((uri, Str(startLine))) else Some((NoFile, NoLine))
  {
  }

  /** The place the normalizer reads off an encoded, non-empty list of locations. */
  lemma PlaceOfEncodedLocations(locs: seq<Location>)
    requires locs != []
    ensures var encoded := EncodeLocations(locs);
      var located := locs[0].physical.Some? && locs[0].physical.value.uri.Some? && locs[0].physical.value.uri.value != "";
      Place(JArr(encoded)) == Some((
        if located then JStr(locs[0].physical.value.uri.value) else NoFile,
        if !located then NoLine
        else if locs[0].physical.value.startLine.Some? then IntToString(locs[0].physical.value.startLine.value)
        else ""))
  {
    var encoded := EncodeLocations(locs);
    assert First(JArr(encoded)) == Some(EncodeLocation(locs[0]));
    match locs[0].physical
    case None =>
      assert Get(EncodeLocation(locs[0]), "physicalLocation", JObj([])) == Some(JObj([]));
      assert PhysicalPlace(JObj([])) == Some((NoFile, NoLine));
    case Some(p) =>
      assert Get(EncodeLocation(locs[0]), "physicalLocation", JObj([])) == Some(EncodePhysical(p));
      PhysicalPlaceOfEncoded(p);
  }

  /** `Convert` succeeds when each of its lookups does, and assembles their values. */
  lemma ConvertFromParts(r: Json, rule: Json, message: Json, text: Json, locations: Json,
                         place: (Json, string), level: Json)
    requires Get(r, "ruleId", JStr("unknown")) == Some(rule)
    requires Get(r, "message", JObj([])) == Some(message)
    requires Get(message, "text", JStr("")) == Some(text)
    requires Get(r, "locations", JArr([])) == Some(locations)
    requires Place(locations) == Some(place)
    requires Get(r, "level", JStr("warning")) == Some(level)
    ensures Convert(r) == Some(Finding(rule, level, place.0, place.1, text))
  {
  }

  /** The members the normalizer reads off an encoded result, with their defaults. */
  lemma EncodedResultMembers(r: SarifResult)
    ensures Get(EncodeResult(r), "ruleId", JStr("unknown")) == Some(JStr(r.ruleId.GetOr("unknown")))
    ensures Get(EncodeResult(r), "message", JObj([])) ==
      Some(if r.text.Some? then JObj([("text", JStr(r.text.value))]) else JObj([]))
    ensures Get(EncodeResult(r), "level", JStr("warning")) == Some(JStr(r.level.GetOr("warning")))
    ensures Get(EncodeResult(r), "locations", JArr([])) == Some(JArr(EncodeLocations(r.locations)))
  {
    var locs := EncodeLocations(r.locations);
    var v1 := if r.ruleId.Some? then Some(JStr(r.ruleId.value)) else None;
    var v2 := if r.text.Some? then Some(JObj([("text", JStr(r.text.value))])) else None;
    var v3 := if r.level.Some? then Some(JStr(r.level.value)) else None;
    var v4 := if r.locations != [] then Some(JArr(locs)) else None;
    var m := Member("ruleId", v1) + Member("message", v2) + Member("level", v3) + Member("locations", v4);
    assert EncodeResult(r) == JObj(m);
    LookupMembers("ruleId", v1, "message", v2, "level", v3, "locations", v4);
    if r.locations == [] {
      assert locs == [];
    }
  }

  /** The normalizer turns an encoded result into exactly the expected finding. */
  lemma ConvertEncodedResult(r: SarifResult)
    ensures Convert(EncodeResult(r)) == Some(ExpectedFinding(r))
  {
    var locs := EncodeLocations(r.locations);
    var message := if r.text.Some? then JObj([("text", JStr(r.text.value))]) else JObj([]);
    var expected := ExpectedFinding(r);
    EncodedResultMembers(r);
    assert Get(message, "text", JStr("")) == Some(expected.message);
    if r.locations != [] {
      PlaceOfEncodedLocations(r.locations);
    } else {
      assert locs == [];
    }
    ConvertFromParts(EncodeResult(r), expected.rule, message, expected.message, JArr(locs),
                     (expected.file, expected.line), expected.level);
  }

  /** An encoded run yields the expected finding of each of its results, in order. */
  lemma RunOfEncoded(run: Run)
    ensures RunFindings(EncodeRun(run)) ==
      Some(ExpectedOfResults(run.results))
  {
    var entries := EncodeResults(run.results);
    var expected := ExpectedOfResults(run.results);
    assert Get(EncodeRun(run), "results", JArr([])) == Some(JArr(entries));
    assert RunEntries(EncodeRun(run)) == Some(entries);
    forall k | 0 <= k < |entries|
      ensures Convert(entries[k]) == Some(expected[k])
    {
      ConvertEncodedResult(run.results[k]);
    }
    var found := ResultsFindings(entries);
    assert found.Some?;
    assert found.value == expected;
  }

  lemma {:induction false} RunsOfEncoded(runs: seq<Run>)
    ensures RunsFindings(EncodeRuns(runs)) == Some(ExpectedFindings(runs))
  {
    if runs != [] {
      var encoded := EncodeRuns(runs);
      var p := runs[..|runs| - 1];
      RunsOfEncoded(p);
      assert encoded[..|encoded| - 1] == EncodeRuns(p);
      RunOfEncoded(runs[|runs| - 1]);
    }
  }

  lemma DocumentFindingsOfRuns(data: Json, runs: seq<Json>)
    requires DocumentRuns(data) == Some(runs)
    ensures DocumentFindings(data) == RunsFindings(runs)
  {
  }

  /**
   * The normalizer agrees with the reference reading of SARIF on every
   * well-formed log: one finding per result, runs and results in order,
   * each with the documented defaults.
   */
  lemma NormalizeEncodedLog(log: Log)
    ensures Normalized(Some(EncodeLog(log))) == ExpectedFindings(log.runs)
  {
    var runs := EncodeRuns(log.runs);
    var members := [("version", JStr("2.1.0")), ("runs", JArr(runs))];
    assert Lookup(members, "runs") == Some(JArr(runs));
    assert EncodeLog(log) == JObj(members);
    assert DocumentRuns(EncodeLog(log)) == Some(runs);
    RunsOfEncoded(log.runs);
    DocumentFindingsOfRuns(EncodeLog(log), runs);
  }

  /** The document synthesized when the engine writes no output holds no findings. */
  lemma EmptyDocumentHasNoFindings()
    ensures Normalized(Some(JObj([("runs", JArr([]))]))) == []
  {
  }

  /** A SQL-injection alert at App.java line 42 becomes one fully populated finding. */
  lemma SqlInjectionExample(text: string)
    ensures Normalized(Some(EncodeLog(Log([Run([SarifResult(Some("java/sql-injection"), Some(text), Some("error"),
      [Location(Some(PhysicalLocation(Some("App.java"), Some(42))))])])])))) ==
      [Finding(JStr("java/sql-injection"), JStr("error"), JStr("App.java"), "42", JStr(text))]
  {
    var result := SarifResult(Some("java/sql-injection"), Some(text), Some("error"),
      [Location(Some(PhysicalLocation(Some("App.java"), Some(42))))]);
    NormalizeEncodedLog(Log([Run([result])]));
    SingleRunFindings(result);
    SqlInjectionFinding(text);
  }

  /** A log of one run with one result is expected to yield that result's finding alone. */
  lemma SingleRunFindings(result: SarifResult)
    ensures ExpectedFindings([Run([result])]) == [ExpectedFinding(result)]
  {
    assert [Run([result])][..0] == [];
  }

  /** The expected finding of the example alert. */
  lemma SqlInjectionFinding(text: string)
    ensures ExpectedFinding(SarifResult(Some("java/sql-injection"), Some(text), Some("error"),
      [Location(Some(PhysicalLocation(Some("App.java"), Some(42))))])) ==
      Finding(JStr("java/sql-injection"), JStr("error"), JStr("App.java"), "42", JStr(text))
  {
    assert IntToString(42) == "42" by {
      assert NatToString(4) == "4";
    }
  }
}
