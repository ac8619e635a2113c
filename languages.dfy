/**
 * Language detection (`detect_language`): classify a flattened file list by
 * a fixed extension table and pick the language with the most files, the
 * language met first winning a tie.
 */
module Languages {
  import opened Wrappers
  import opened Paths

  datatype Language = Java | Python | JavaScript | Cpp | CSharp | Go | Ruby

  /** The name the engine and the rest of the pipeline use for a language. */
  function Name(l: Language): string {
    match l
    case Java => "java"
    case Python => "python"
    case JavaScript => "javascript"
    case Cpp => "cpp"
    case CSharp => "csharp"
    case Go => "go"
    case Ruby => "ruby"
  }

  /** The extension table: a lower-case extension, dot included, to its language. */
  function LanguageOfExtension(ext: string): Option<Language> {
    match ext
    case ".java" => Some(Java)
    case ".py" => Some(Python)
    case ".js" => Some(JavaScript)
    case ".jsx" => Some(JavaScript)
    case ".ts" => Some(JavaScript)
    case ".tsx" => Some(JavaScript)
    case ".c" => Some(Cpp)
    case ".cpp" => Some(Cpp)
    case ".h" => Some(Cpp)
    case ".cc" => Some(Cpp)
    case ".cs" => Some(CSharp)
    case ".go" => Some(Go)
    case ".rb" => Some(Ruby)
    case _ => None
  }

  /** The language a single path counts towards, if any. */
  function LanguageOf(path: string): Option<Language> {
    LanguageOfExtension(Lower(Extension(path)))
  }

  /** Classification ignores the case of the path. */
  lemma LanguageOfIgnoresCase(path: string)
    ensures LanguageOf(Lower(path)) == LanguageOf(path)
  {
    ExtensionOfLower(path);
    LowerTwice(Extension(path));
  }

  /**
   * The table sends four extensions to C/C++, four to JavaScript and one
   * each to the other languages; every other extension is unmapped.
   */
  lemma ExtensionTable(ext: string)
    ensures LanguageOfExtension(ext) == Some(Cpp) <==> ext in {".c", ".cpp", ".h", ".cc"}
    ensures LanguageOfExtension(ext) == Some(JavaScript) <==> ext in {".js", ".jsx", ".ts", ".tsx"}
    ensures LanguageOfExtension(ext) == Some(Java) <==> ext == ".java"
    ensures LanguageOfExtension(ext) == Some(Python) <==> ext == ".py"
    ensures LanguageOfExtension(ext) == Some(CSharp) <==> ext == ".cs"
    ensures LanguageOfExtension(ext) == Some(Go) <==> ext == ".go"
    ensures LanguageOfExtension(ext) == Some(Ruby) <==> ext == ".rb"
  {
  }

  /** Two paths that differ only in the case of their letters count towards the same language. */
  lemma SameUpToCaseSameLanguage(p: string, q: string)
    requires Lower(p) == Lower(q)
    ensures LanguageOf(p) == LanguageOf(q)
  {
    LanguageOfIgnoresCase(p);
    LanguageOfIgnoresCase(q);
  }

  /** The language each file counts towards, position by position. */
  function Classified(files: seq<string>): (tags: seq<Option<Language>>)
    ensures |tags| == |files|
    ensures forall i :: 0 <= i < |files| ==> tags[i] == LanguageOf(files[i])
  {
    seq(|files|, i requires 0 <= i < |files| => LanguageOf(files[i]))
  }

  /** How many files tagged `tags` count towards `l`. */
  function Count(tags: seq<Option<Language>>, l: Language): nat {
    if tags == [] then 0
    else Count(tags[..|tags| - 1], l) + (if tags[|tags| - 1] == Some(l) then 1 else 0)
  }

  /** The position of the first file counting towards `l`, or `|tags|` when there is none. */
  function FirstIndex(tags: seq<Option<Language>>, l: Language): (k: nat)
    ensures k <= |tags|
  {
    if tags == [] then 0
    else
      var p := tags[..|tags| - 1];
      var k := FirstIndex(p, l);
      if k < |p| then k
      else if tags[|tags| - 1] == Some(l) then |p|
      else |tags|
  }

  /** The languages met in `tags`, each once, in the order of their first file. */
  function Seen(tags: seq<Option<Language>>): seq<Language> {
    if tags == [] then []
    else
      var s := Seen(tags[..|tags| - 1]);
      match tags[|tags| - 1]
      case Some(l) => if l in s then s else s + [l]
      case None => s
  }

  /** `FirstIndex` finds the first file of its language, and a language has files exactly when it finds one. */
  lemma {:induction false} FirstIndexIsFirst(tags: seq<Option<Language>>, l: Language)
    ensures FirstIndex(tags, l) < |tags| <==> Count(tags, l) > 0
    ensures FirstIndex(tags, l) < |tags| ==> tags[FirstIndex(tags, l)] == Some(l)
    ensures forall j :: 0 <= j < FirstIndex(tags, l) && j < |tags| ==> tags[j] != Some(l)
  {
    if tags != [] {
      var p := tags[..|tags| - 1];
      FirstIndexIsFirst(p, l);
      assert forall j :: 0 <= j < |p| ==> p[j] == tags[j];
    }
  }

  /** A language has files exactly when some file is tagged with it. */
  lemma {:induction false} CountPositive(tags: seq<Option<Language>>, l: Language)
    ensures Count(tags, l) > 0 <==> Some(l) in tags
  {
    FirstIndexIsFirst(tags, l);
    if Some(l) in tags {
      var j :| 0 <= j < |tags| && tags[j] == Some(l);
      assert FirstIndex(tags, l) <= j;
    }
  }

  /** `Seen` holds exactly the languages that have files. */
  lemma {:induction false} SeenHasLanguagesWithFiles(tags: seq<Option<Language>>)
    ensures forall l :: l in Seen(tags) <==> Count(tags, l) > 0
  {
    if tags != [] {
      SeenHasLanguagesWithFiles(tags[..|tags| - 1]);
    }
  }

  /** `Seen` lists its languages in strictly increasing order of the position of their first file. */
  lemma {:induction false} SeenIsOrderedByFirstFile(tags: seq<Option<Language>>)
    ensures forall i, j :: 0 <= i < j < |Seen(tags)| ==>
      FirstIndex(tags, Seen(tags)[i]) < FirstIndex(tags, Seen(tags)[j])
  {
    if tags != [] {
      var p := tags[..|tags| - 1];
      var s := Seen(p);
      SeenIsOrderedByFirstFile(p);
      SeenHasLanguagesWithFiles(p);
      forall l | l in s
        ensures FirstIndex(tags, l) == FirstIndex(p, l) < |p|
      {
        FirstIndexIsFirst(p, l);
      }
      match tags[|tags| - 1]
      case Some(l) =>
        if l !in s {
          FirstIndexIsFirst(p, l);
          assert FirstIndex(tags, l) == |p|;
          assert Seen(tags) == s + [l];
        }
      case None =>
    }
  }

  /** The histogram of `tags`: its languages in order of first file, each with its file count. */
  ghost predicate Histogram(tags: seq<Option<Language>>, order: seq<Language>, counts: map<Language, nat>) {
    && order == Seen(tags)
    && (forall l :: l in counts <==> l in order)
    && (forall l :: l in counts ==> counts[l] == Count(tags, l))
  }

  /** Counting one more file keeps the histogram up to date. */
  lemma HistogramStep(tags: seq<Option<Language>>, i: nat, order: seq<Language>, counts: map<Language, nat>,
                      order': seq<Language>, counts': map<Language, nat>)
    requires i < |tags| && Histogram(tags[..i], order, counts)
    requires tags[i].None? ==> order' == order && counts' == counts
    requires tags[i].Some? && tags[i].value in counts ==>
      order' == order && counts' == counts[tags[i].value := counts[tags[i].value] + 1]
    requires tags[i].Some? && tags[i].value !in counts ==>
      order' == order + [tags[i].value] && counts' == counts[tags[i].value := 1]
    ensures Histogram(tags[..i + 1], order', counts')
  {
    var p := tags[..i + 1];
    assert p[..i] == tags[..i];
    if tags[i].Some? && tags[i].value !in counts {
      SeenHasLanguagesWithFiles(tags[..i]);
    }
    forall l | l in counts'
      ensures counts'[l] == Count(p, l)
    {
      assert Count(p, l) == Count(tags[..i], l) + (if tags[i] == Some(l) then 1 else 0);
    }
  }

  /**
   * The loop of `detect_language` that fills the histogram. Python's
   * insertion-ordered dict is held as its key order `order` and its counts
   * `counts`.
   */
  method BuildHistogram(files: seq<string>) returns (order: seq<Language>, counts: map<Language, nat>)
    ensures order == Seen(Classified(files))
    ensures forall l :: l in counts <==> l in order
    ensures forall l :: l in order <==> Count(Classified(files), l) > 0
    ensures forall l :: l in counts ==> counts[l] == Count(Classified(files), l)
    ensures forall i, j :: 0 <= i < j < |order| ==>
      FirstIndex(Classified(files), order[i]) < FirstIndex(Classified(files), order[j])
  {
    ghost var tags := Classified(files);
    order, counts := [], map[];
    for i := 0 to |files|
      invariant Histogram(tags[..i], order, counts)
    {
      ghost var order0, counts0 := order, counts;
      var mapped := LanguageOf(files[i]);
      if mapped.Some? {
        var lang := mapped.value;
        if lang in counts {
          counts := counts[lang := counts[lang] + 1];
        } else {
          order := order + [lang];
          counts := counts[lang := 1];
        }
      }
      HistogramStep(tags, i, order0, counts0, order, counts);
    }
    assert tags[..|files|] == tags;
    SeenHasLanguagesWithFiles(tags);
    SeenIsOrderedByFirstFile(tags);
  }

  /**
   * Python's `max(exts.items(), key=lambda x: x[1])`: the position of the
   * first entry whose count no other entry exceeds.
   */
  method FirstMaximum(order: seq<Language>, counts: map<Language, nat>) returns (best: nat)
    requires |order| > 0
    requires forall l :: l in order ==> l in counts
    ensures best < |order|
    ensures forall j :: 0 <= j < |order| ==> counts[order[j]] <= counts[order[best]]
    ensures forall j :: 0 <= j < best ==> counts[order[j]] < counts[order[best]]
  {
    best := 0;
    for k := 1 to |order|
      invariant 0 <= best < k
      invariant forall j :: 0 <= j < k ==> counts[order[j]] <= counts[order[best]]
      invariant forall j :: 0 <= j < best ==> counts[order[j]] < counts[order[best]]
    {
      if counts[order[k]] > counts[order[best]] {
        best := k;
      }
    }
  }

  /**
   * `detect_language`: no language when no file is mapped; otherwise a
   * language with the greatest count, and among those the one whose first
   * file comes earliest (Python's `max` keeps the first maximal dict entry).
   */
  method DetectLanguage(files: seq<string>) returns (r: Option<Language>)
    ensures r.None? <==> forall i :: 0 <= i < |files| ==> LanguageOf(files[i]).None?
    ensures r.Some? ==> Count(Classified(files), r.value) > 0
    ensures r.Some? ==> forall l :: Count(Classified(files), l) <= Count(Classified(files), r.value)
    ensures r.Some? ==> forall l :: l != r.value && Count(Classified(files), l) == Count(Classified(files), r.value) ==>
      FirstIndex(Classified(files), r.value) < FirstIndex(Classified(files), l)
  {
    ghost var tags := Classified(files);
    var order, counts := BuildHistogram(files);
    if |order| == 0 {
      forall l
        ensures Some(l) !in tags
      {
        CountPositive(tags, l);
      }
      return None;
    }
    var best := FirstMaximum(order, counts);
    var lang := order[best];
    r := Some(lang);
    assert Some(order[0]) in tags by {
      CountPositive(tags, order[0]);
    }
    forall l | l in order
      ensures Count(tags, l) <= Count(tags, lang)
      ensures l != lang && Count(tags, l) == Count(tags, lang) ==> FirstIndex(tags, lang) < FirstIndex(tags, l)
    {
      var j :| 0 <= j < |order| && order[j] == l;
      assert counts[l] <= counts[lang];
      if l != lang && counts[l] == counts[lang] {
        assert best < j;
        assert FirstIndex(tags, order[best]) < FirstIndex(tags, order[j]);
      }
    }
  }
}
