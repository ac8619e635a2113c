/**
 * The pieces of Python's `os.path` (POSIX flavour) and `str` that the
 * orchestration logic relies on: `rfind`, `os.path.join`, `os.path.basename`,
 * the extension part of `os.path.splitext`, `str.lower` and `str(int)`.
 */
module Paths {

  /** `s.rfind(c)`: the index of the last occurrence of `c`, or -1. */
  function LastIndexOf(s: string, c: char): (r: int)
    ensures -1 <= r < |s|
    ensures r >= 0 ==> s[r] == c
    ensures forall k :: r < k < |s| ==> s[k] != c
  {
    if s == [] then -1
    else if s[|s| - 1] == c then |s| - 1
    else LastIndexOf(s[..|s| - 1], c)
  }

  /** Appending text that does not contain `c` leaves the last occurrence of `c` where it was. */
  lemma {:induction false} LastIndexOfAppend(s: string, u: string, c: char)
    requires c !in u
    ensures LastIndexOf(s + u, c) == LastIndexOf(s, c)
  {
    if u != [] {
      var w := u[..|u| - 1];
      assert (s + u)[..|s + u| - 1] == s + w;
      assert u[|u| - 1] in u;
      LastIndexOfAppend(s, w, c);
    } else {
      assert s + u == s;
    }
  }

  /** `os.path.join(a, b)` on POSIX. */
  function Join(a: string, b: string): (r: string)
    ensures |b| > 0 && b[0] == '/' ==> r == b
    ensures !(|b| > 0 && b[0] == '/') ==> |r| >= |a| + |b| && r[|r| - |b|..] == b && r[..|a|] == a
    ensures !(|b| > 0 && b[0] == '/') ==>
      r == a + (if a == [] || a[|a| - 1] == '/' then "" else "/") + b
  {
    if |b| > 0 && b[0] == '/' then b
    else if a == [] || a[|a| - 1] == '/' then a + b
    else a + "/" + b
  }

  /** `os.path.join(a, p0, p1, ...)`. */
  function JoinAll(a: string, parts: seq<string>): string
    decreases |parts|
  {
    if parts == [] then a else JoinAll(Join(a, parts[0]), parts[1..])
  }

  /** `os.path.basename(p)` on POSIX: everything after the last '/'. */
  function Basename(p: string): (r: string)
    ensures '/' !in r
    ensures |r| <= |p| && r == p[|p| - |r|..]
    ensures |r| < |p| ==> p[|p| - |r| - 1] == '/'
  {
    var i := LastIndexOf(p, '/') + 1;
    assert forall k :: 0 <= k < |p[i..]| ==> p[i..][k] == p[i + k];
    p[i..]
  }

  /** Every base name is the base name of itself joined below any directory. */
  lemma BasenameOfJoin(dir: string, name: string)
    requires name != [] && '/' !in name
    ensures Basename(Join(dir, name)) == name
  {
    if dir == [] || dir[|dir| - 1] == '/' {
      LastIndexOfAppend(dir, name, '/');
      if dir == [] {
        assert dir + name == name;
      } else {
        assert LastIndexOf(dir, '/') == |dir| - 1;
      }
    } else {
      LastIndexOfAppend(dir + "/", name, '/');
      assert dir + "/" + name == (dir + "/") + name;
    }
  }

  /** Nothing after the last occurrence of `c` is `c`. */
  lemma NoneAfterLast(s: string, c: char, i: nat)
    requires LastIndexOf(s, c) < i <= |s|
    ensures c !in s[i..]
  {
    assert forall k :: 0 <= k < |s[i..]| ==> s[i..][k] == s[i + k];
  }

  predicate HasNonDot(s: string) {
    exists k :: 0 <= k < |s| && s[k] != '.'
  }

  /**
   * The extension of `p` given the positions `sep` of its last '/' and
   * `dot` of its last '.': from that dot to the end, provided the dot lies
   * in the last component and something other than dots precedes it there.
   */
  function ExtensionAt(p: string, sep: int, dot: int): string
    requires -1 <= sep < |p| && -1 <= dot < |p|
  {
    if dot > sep && HasNonDot(p[sep + 1..dot]) then p[dot..] else []
  }

  /** A '.' after a non-dot in the last component is a witness of a non-empty extension. */
  lemma ExtensionWitness(p: string, sep: int, dot: int)
    requires -1 <= sep < dot < |p| && p[dot] == '.' && HasNonDot(p[sep + 1..dot])
    ensures exists i, j :: sep < i < j < |p| && p[i] != '.' && p[j] == '.'
  {
    var k :| 0 <= k < |p[sep + 1..dot]| && p[sep + 1..dot][k] != '.';
    assert p[sep + 1 + k] != '.';
  }

  /** Given such a witness, the last '.' lies after a non-dot of the last component. */
  lemma WitnessGivesExtension(p: string, sep: int, dot: int, i: int, j: int)
    requires -1 <= sep < i < j < |p| && p[i] != '.' && p[j] == '.'
    requires -1 <= dot < |p| && forall k :: dot < k < |p| ==> p[k] != '.'
    ensures dot > sep && HasNonDot(p[sep + 1..dot])
  {
    assert j <= dot;
    assert p[sep + 1..dot][i - sep - 1] != '.';
  }

  /**
   * Cut at the last '/' and the last '.', the extension is non-empty exactly
   * when the last component holds a '.' after some character other than '.'.
   */
  lemma ExtensionAtNonEmpty(p: string)
    ensures ExtensionAt(p, LastIndexOf(p, '/'), LastIndexOf(p, '.')) != [] <==>
      exists i, j :: LastIndexOf(p, '/') < i < j < |p| && p[i] != '.' && p[j] == '.'
  {
    var sep, dot := LastIndexOf(p, '/'), LastIndexOf(p, '.');
    if dot > sep && HasNonDot(p[sep + 1..dot]) {
      ExtensionWitness(p, sep, dot);
    }
    if exists i, j :: sep < i < j < |p| && p[i] != '.' && p[j] == '.' {
      var i, j :| sep < i < j < |p| && p[i] != '.' && p[j] == '.';
      WitnessGivesExtension(p, sep, dot, i, j);
    }
  }

  /**
   * The second component of `os.path.splitext(p)` on POSIX: from the last
   * dot of the last path component to the end, provided that dot is
   * preceded in the component by something other than dots (so `.bashrc`
   * has no extension); otherwise empty.
   */
  function Extension(p: string): (e: string)
    ensures e == [] || (e[0] == '.' && '.' !in e[1..] && '/' !in e)
    ensures |e| <= |p| && (e != [] ==> e == p[|p| - |e|..])
    ensures e != [] <==> exists i, j :: LastIndexOf(p, '/') < i < j < |p| && p[i] != '.' && p[j] == '.'
  {
    var sep := LastIndexOf(p, '/');
    var dot := LastIndexOf(p, '.');
    var e := ExtensionAt(p, sep, dot);
    ExtensionAtNonEmpty(p);
    if e != [] then
      assert e == p[dot..];
      assert '.' !in e[1..] by {
        NoneAfterLast(p, '.', dot + 1);
        assert e[1..] == p[dot + 1..];
      }
      assert '/' !in e by {
        NoneAfterLast(p, '/', dot);
      }
      assert e == p[|p| - |e|..];
      e
    else e
  }

  /** `c.lower()` for one character: ASCII upper-case letters are mapped to lower case. */
  function LowerChar(c: char): char {
    if 'A' <= c <= 'Z' then (c as int + 32) as char else c
  }

  /** `s.lower()`, restricted to ASCII letters. */
  function Lower(s: string): (r: string)
    ensures |r| == |s|
    ensures forall k :: 0 <= k < |s| ==> r[k] == LowerChar(s[k])
  {
    seq(|s|, k requires 0 <= k < |s| => LowerChar(s[k]))
  }

  lemma {:induction false} LowerTwice(s: string)
    ensures Lower(Lower(s)) == Lower(s)
  {
    var l := Lower(s);
    var ll := Lower(l);
    assert forall k :: 0 <= k < |s| ==> ll[k] == LowerChar(LowerChar(s[k])) == LowerChar(s[k]);
  }

  /** Lower-casing moves no '/' or '.', so it commutes with finding the last one. */
  lemma {:induction false} LastIndexOfLower(s: string, c: char)
    requires c == '/' || c == '.'
    ensures LastIndexOf(Lower(s), c) == LastIndexOf(s, c)
  {
    if s != [] {
      var p := s[..|s| - 1];
      assert Lower(s)[..|s| - 1] == Lower(p);
      LastIndexOfLower(p, c);
    }
  }

  /** Lower-casing a slice is slicing the lower-cased text. */
  lemma LowerSlice(s: string, i: nat, j: nat)
    requires i <= j <= |s|
    ensures Lower(s)[i..j] == Lower(s[i..j])
  {
    var ls, t := Lower(s), s[i..j];
    var lt := Lower(t);
    assert |ls[i..j]| == |lt|;
    forall k | 0 <= k < j - i
      ensures ls[i..j][k] == lt[k]
    {
      assert t[k] == s[i + k];
    }
  }

  lemma HasNonDotLower(s: string)
    ensures HasNonDot(Lower(s)) == HasNonDot(s)
  {
    if HasNonDot(s) {
      var k :| 0 <= k < |s| && s[k] != '.';
      assert Lower(s)[k] != '.';
    }
    if HasNonDot(Lower(s)) {
      var k :| 0 <= k < |s| && Lower(s)[k] != '.';
      assert s[k] != '.';
    }
  }

  /** Lower-casing commutes with taking the extension at given positions. */
  lemma ExtensionAtLower(p: string, sep: int, dot: int)
    requires -1 <= sep < |p| && -1 <= dot < |p|
    ensures ExtensionAt(Lower(p), sep, dot) == Lower(ExtensionAt(p, sep, dot))
  {
    var lp := Lower(p);
    if dot > sep {
      LowerSlice(p, sep + 1, dot);
      HasNonDotLower(p[sep + 1..dot]);
      if HasNonDot(p[sep + 1..dot]) {
        LowerSlice(p, dot, |p|);
        assert lp[dot..] == lp[dot..|p|];
        assert p[dot..] == p[dot..|p|];
      }
    }
  }

  /** Taking the extension and lower-casing can be done in either order. */
  lemma ExtensionOfLower(p: string)
    ensures Extension(Lower(p)) == Lower(Extension(p))
  {
    LastIndexOfLower(p, '/');
    LastIndexOfLower(p, '.');
    ExtensionAtLower(p, LastIndexOf(p, '/'), LastIndexOf(p, '.'));
  }

  function DigitChar(d: nat): char
    requires d < 10
  {
    ('0' as int + d) as char
  }

  /** The number a string of decimal digits denotes, most significant digit first. */
  function DigitsValue(s: string): nat
    requires forall k :: 0 <= k < |s| ==> '0' <= s[k] <= '9'
  {
    if s == [] then 0 else 10 * DigitsValue(s[..|s| - 1]) + (s[|s| - 1] as int - '0' as int)
  }

  /** `str(n)` for a natural number: its decimal digits, most significant first. */
  function NatToString(n: nat): (r: string)
    ensures |r| >= 1
    ensures forall k :: 0 <= k < |r| ==> '0' <= r[k] <= '9'
    ensures |r| > 1 ==> r[0] != '0'
    ensures DigitsValue(r) == n
  {
    if n < 10 then
      var r := [DigitChar(n)];
      assert r[..0] == [];
      r
    else
      var r := NatToString(n / 10) + [DigitChar(n % 10)];
      assert r[..|r| - 1] == NatToString(n / 10);
      r
  }

  /** `str(n)` for an integer: a minus sign before the digits of a negative number. */
  function IntToString(n: int): (r: string)
    ensures r != []
    ensures (r[0] == '-') == (n < 0)
    ensures n < 0 ==> (forall k :: 1 <= k < |r| ==> '0' <= r[k] <= '9') && |r| >= 2 && DigitsValue(r[1..]) == -n
    ensures n >= 0 ==> (forall k :: 0 <= k < |r| ==> '0' <= r[k] <= '9') && DigitsValue(r) == n
    ensures n >= 0 && |r| > 1 ==> r[0] != '0'
    ensures n < 0 ==> r[1] != '0'
  {
    if n < 0 then
      var d := NatToString(-n);
      assert ("-" + d)[1..] == d;
      "-" + d
    else NatToString(n)
  }
}
