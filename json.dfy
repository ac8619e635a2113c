/**
 * A decoded JSON document as the Python code sees it after `json.load`,
 * with the handful of Python operations the normalizer applies to it:
 * `dict.get` with a default, truth testing, `for` iteration and `str()`.
 */
module JsonValues {
  import opened Wrappers
  import opened Paths

  /**
   * JSON values. An object keeps its members in document order; numbers
   * are integers (see README for fractions and exponents).
   */
  datatype Json =
    | JNull
    | JBool(b: bool)
    | JInt(i: int)
    | JStr(s: string)
    | JArr(items: seq<Json>)
    | JObj(members: seq<(string, Json)>)

  /** The position of the last member with `key`, or -1. */
  function LastKeyIndex(members: seq<(string, Json)>, key: string): (i: int)
    ensures -1 <= i < |members|
    ensures i >= 0 ==> members[i].0 == key
    ensures forall j :: i < j < |members| ==> members[j].0 != key
  {
    if members == [] then -1
    else if members[|members| - 1].0 == key then |members| - 1
    else LastKeyIndex(members[..|members| - 1], key)
  }

  /** The value `json.load` keeps for `key`: that of the member with the key that comes last. */
  function Lookup(members: seq<(string, Json)>, key: string): (r: Option<Json>)
    ensures r.None? <==> forall k :: 0 <= k < |members| ==> members[k].0 != key
    ensures r.Some? ==> exists k :: (0 <= k < |members| && members[k] == (key, r.value) &&
      forall j :: k < j < |members| ==> members[j].0 != key)
  {
    var i := LastKeyIndex(members, key);
    if i < 0 then None
    else
      assert members[i] == (key, members[i].1);
      Some(members[i].1)
  }

  /** The last member with a key lies in the appended part if that part has the key at all. */
  lemma {:induction false} LastKeyIndexAppend(a: seq<(string, Json)>, b: seq<(string, Json)>, key: string)
    ensures LastKeyIndex(a + b, key) ==
      if LastKeyIndex(b, key) >= 0 then |a| + LastKeyIndex(b, key) else LastKeyIndex(a, key)
  {
    if b != [] {
      var w := b[..|b| - 1];
      assert (a + b)[..|a + b| - 1] == a + w;
      LastKeyIndexAppend(a, w, key);
    } else {
      assert a + b == a;
    }
  }

  /** A later member wins a lookup; an earlier one is consulted only when the later ones lack the key. */
  lemma LookupAppend(a: seq<(string, Json)>, b: seq<(string, Json)>, key: string)
    ensures Lookup(a + b, key) == if Lookup(b, key).Some? then Lookup(b, key) else Lookup(a, key)
  {
    LastKeyIndexAppend(a, b, key);
  }

  /** A lookup in four member lists consults them from the last to the first. */
  lemma LookupInFour(m1: seq<(string, Json)>, m2: seq<(string, Json)>, m3: seq<(string, Json)>,
                     m4: seq<(string, Json)>, key: string)
    ensures Lookup(m1 + m2 + m3 + m4, key) ==
      if Lookup(m4, key).Some? then Lookup(m4, key)
      else if Lookup(m3, key).Some? then Lookup(m3, key)
      else if Lookup(m2, key).Some? then Lookup(m2, key)
      else Lookup(m1, key)
  {
    LookupAppend(m1 + m2 + m3, m4, key);
    LookupAppend(m1 + m2, m3, key);
    LookupAppend(m1, m2, key);
  }

  /** `v.get(key, default)`: `None` stands for the AttributeError raised when `v` is not a dict. */
  function Get(v: Json, key: string, default: Json): (r: Option<Json>)
    ensures r.Some? <==> v.JObj?
    ensures v.JObj? && Lookup(v.members, key).None? ==> r == Some(default)
    ensures v.JObj? && Lookup(v.members, key).Some? ==> r == Lookup(v.members, key)
  {
    match v
    case JObj(members) => Some(Lookup(members, key).GetOr(default))
    case _ => None
  }

  /** Python truth testing: null, false, zero and empty containers are false. */
  predicate Truthy(v: Json) {
    match v
    case JNull => false
    case JBool(b) => b
    case JInt(i) => i != 0
    case JStr(s) => s != []
    case JArr(items) => items != []
    case JObj(members) => members != []
  }

  /** The position of the first member with `key`, or `|members|` when there is none. */
  function FirstKeyIndex(members: seq<(string, Json)>, key: string): (i: nat)
    ensures i <= |members|
    ensures i < |members| ==> members[i].0 == key
    ensures forall j :: 0 <= j < i && j < |members| ==> members[j].0 != key
  {
    if members == [] then 0
    else
      var p := members[..|members| - 1];
      assert forall j :: 0 <= j < |p| ==> p[j] == members[j];
      var i := FirstKeyIndex(p, key);
      if i < |p| then i
      else if members[|members| - 1].0 == key then |p|
      else |members|
  }

  /**
   * The keys of the dict that `json.load` builds from `members`: each key
   * once, in the order of its first member (a repeated key keeps its place
   * and takes the later value).
   */
  function DistinctKeys(members: seq<(string, Json)>): seq<string> {
    if members == [] then []
    else
      var ks := DistinctKeys(members[..|members| - 1]);
      var key := members[|members| - 1].0;
      if key in ks then ks else ks + [key]
  }

  /** The dict has exactly the keys of the members. */
  lemma {:induction false} DistinctKeysAreTheKeys(members: seq<(string, Json)>)
    ensures forall key :: key in DistinctKeys(members) <==> exists i :: 0 <= i < |members| && members[i].0 == key
  {
    if members != [] {
      var p := members[..|members| - 1];
      DistinctKeysAreTheKeys(p);
      assert forall j :: 0 <= j < |p| ==> p[j] == members[j];
    }
  }

  /** The dict's keys are in strictly increasing order of their first member, so none repeats. */
  lemma {:induction false} DistinctKeysInFirstOrder(members: seq<(string, Json)>)
    ensures forall i, j :: 0 <= i < j < |DistinctKeys(members)| ==>
      FirstKeyIndex(members, DistinctKeys(members)[i]) < FirstKeyIndex(members, DistinctKeys(members)[j])
    ensures forall i, j :: 0 <= i < j < |DistinctKeys(members)| ==> DistinctKeys(members)[i] != DistinctKeys(members)[j]
  {
    if members != [] {
      var p := members[..|members| - 1];
      var ks := DistinctKeys(p);
      var key := members[|members| - 1].0;
      DistinctKeysInFirstOrder(p);
      DistinctKeysAreTheKeys(p);
      forall k | k in ks
        ensures FirstKeyIndex(members, k) == FirstKeyIndex(p, k) < |p|
      {
        var i :| 0 <= i < |p| && p[i].0 == k;
        assert FirstKeyIndex(p, k) <= i;
      }
      if key !in ks {
        assert FirstKeyIndex(members, key) == |p|;
        assert DistinctKeys(members) == ks + [key];
      }
    }
  }

  /**
   * What `for x in v` visits: the items of a list, the distinct keys of a
   * dict, the one-character strings of a string; `None` stands for the
   * TypeError raised on a value that is not iterable.
   */
  function Elements(v: Json): (r: Option<seq<Json>>)
    ensures r.Some? <==> v.JArr? || v.JObj? || v.JStr?
    ensures v.JArr? ==> r == Some(v.items)
    ensures v.JObj? ==> (r.Some? && |r.value| == |DistinctKeys(v.members)| &&
      forall k :: 0 <= k < |r.value| ==> r.value[k] == JStr(DistinctKeys(v.members)[k]))
    ensures v.JStr? ==> (r.Some? && |r.value| == |v.s| &&
      forall k :: 0 <= k < |r.value| ==> r.value[k] == JStr([v.s[k]]))
    ensures r.Some? ==> (|r.value| == 0 <==> !Truthy(v))
  {
    match v
    case JArr(items) => Some(items)
    case JObj(members) =>
      var ks := DistinctKeys(members);
      DistinctKeysAreTheKeys(members);
      assert members != [] ==> members[0].0 in ks;
      Some(seq(|ks|, k requires 0 <= k < |ks| => JStr(ks[k])))
    case JStr(s) => Some(seq(|s|, k requires 0 <= k < |s| => JStr([s[k]])))
    case _ => None
  }

  /** `repr(v)`; strings are quoted with single quotes and not escaped. */
  function Repr(v: Json): string
    decreases v, 1
  {
    match v
    case JNull => "None"
    case JBool(b) => if b then "True" else "False"
    case JInt(i) => IntToString(i)
    case JStr(s) => "'" + s + "'"
    case JArr(items) => "[" + ReprItems(v, 0) + "]"
    case JObj(members) => "{" + ReprMembers(v, 0) + "}"
  }

  function ReprItems(v: Json, from: nat): string
    requires v.JArr? && from <= |v.items|
    decreases v, 0, |v.items| - from
  {
    if from == |v.items| then ""
    else
      (if from == 0 then "" else ", ") + Repr(v.items[from]) + ReprItems(v, from + 1)
  }

  /**
   * The members of the dict that `json.load` builds, as `repr` prints
   * them: each distinct key once, in the order of its first member, with
   * the value of its last member.
   */
  function ReprMembers(v: Json, from: nat): string
    requires v.JObj? && from <= |DistinctKeys(v.members)|
    decreases v, 0, |DistinctKeys(v.members)| - from
  {
    var ks := DistinctKeys(v.members);
    if from == |ks| then ""
    else
      var key := ks[from];
      DistinctKeysAreTheKeys(v.members);
      assert key in ks;
      var i := LastKeyIndex(v.members, key);
      assert i >= 0;
      var m := v.members[i];
      assert m in v.members;
      (if from == 0 then "" else ", ") + "'" + key + "': " + Repr(m.1) + ReprMembers(v, from + 1)
  }

  /** A repeated key is printed once, with the value of its last member. */
  lemma ReprKeepsLastDuplicate()
    ensures Repr(JObj([("x", JInt(1)), ("x", JInt(2))])) == "{'x': 2}"
  {
    var v := JObj([("x", JInt(1)), ("x", JInt(2))]);
    assert DistinctKeys(v.members[..1]) == ["x"];
    assert DistinctKeys(v.members) == ["x"];
    assert LastKeyIndex(v.members, "x") == 1;
    assert IntToString(2) == "2";
  }

  /** `str(v)`: a string is itself, anything else its `repr`. */
  function Str(v: Json): (r: string)
    ensures v.JStr? ==> r == v.s
    ensures v.JInt? ==> r == IntToString(v.i)
  {
    match v
    case JStr(s) => s
    case _ => Repr(v)
  }
}
