/** String helpers with the meaning Python gives them: `str.isspace`, `str.strip`,
    `str.upper` (ASCII part), `in`, `str.find`, `str.startswith`, `str.split(sep)`
    and the ordering `<` of two strings. */
module Text {

  datatype Option<T> = None | Some(value: T)

  /** The characters for which Python's `str.isspace()` is true. */
  predicate IsSpace(c: char)
  {
    c == ' ' || ('\t' <= c <= '\r') || ('\U{1C}' <= c <= '\U{1F}') || c == '\U{85}' || c == '\U{A0}'
    || c == '\U{1680}' || ('\U{2000}' <= c <= '\U{200A}') || c == '\U{2028}' || c == '\U{2029}'
    || c == '\U{202F}' || c == '\U{205F}' || c == '\U{3000}'
  }

  predicate IsDigit(c: char) { '0' <= c <= '9' }

  predicate IsUpperAlnum(c: char) { 'A' <= c <= 'Z' || IsDigit(c) }

  /** `s.lstrip()` */
  function TrimLeft(s: string): string
  {
    if s != [] && IsSpace(s[0]) then TrimLeft(s[1..]) else s
  }

  /** `s.rstrip()` */
  function TrimRight(s: string): string
  {
    if s != [] && IsSpace(s[|s| - 1]) then TrimRight(s[..|s| - 1]) else s
  }

  /** Text made of white space only (the empty text included). */
  predicate Blank(s: string)
  {
    forall k :: 0 <= k < |s| ==> IsSpace(s[k])
  }

  /** How many white-space characters `s` starts with. */
  function LeadingSpaces(s: string): (n: nat)
    ensures n <= |s|
  {
    if s != [] && IsSpace(s[0]) then 1 + LeadingSpaces(s[1..]) else 0
  }

  /** `lstrip` drops the leading white space and nothing else. */
  lemma {:induction false} TrimLeftSpec(s: string)
    ensures TrimLeft(s) == s[LeadingSpaces(s)..] && Blank(s[..LeadingSpaces(s)])
  {
    if s != [] && IsSpace(s[0]) {
      var t := s[1..];
      TrimLeftSpec(t);
      var i := LeadingSpaces(t);
      assert TrimLeft(s) == s[i + 1..] by {
        assert t[i..] == s[i + 1..];
      }
      assert Blank(s[..i + 1]) by {
        assert s[..i + 1] == [s[0]] + t[..i];
        BlankConcat([s[0]], t[..i]);
      }
    }
  }

  /** What `lstrip` keeps does not start with white space. */
  lemma {:induction false} TrimLeftEdge(s: string)
    ensures TrimLeft(s) == [] || !IsSpace(TrimLeft(s)[0])
  {
    if s != [] && IsSpace(s[0]) {
      TrimLeftEdge(s[1..]);
    }
  }

  /** How many white-space characters `s` ends with. */
  function TrailingSpaces(s: string): (n: nat)
    ensures n <= |s|
  {
    if s != [] && IsSpace(s[|s| - 1]) then 1 + TrailingSpaces(s[..|s| - 1]) else 0
  }

  /** `rstrip` drops the trailing white space and nothing else. */
  lemma {:induction false} TrimRightSpec(s: string)
    ensures TrimRight(s) == s[..|s| - TrailingSpaces(s)] && Blank(s[|s| - TrailingSpaces(s)..])
  {
    if s != [] && IsSpace(s[|s| - 1]) {
      var init := s[..|s| - 1];
      TrimRightSpec(init);
      var j := |init| - TrailingSpaces(init);
      assert TrimRight(s) == s[..j] by {
        assert init[..j] == s[..j];
      }
      assert Blank(s[j..]) by {
        assert s[j..] == init[j..] + [s[|s| - 1]];
        BlankConcat(init[j..], [s[|s| - 1]]);
      }
    }
  }

  /** What `rstrip` keeps does not end with white space. */
  lemma {:induction false} TrimRightEdge(s: string)
    ensures TrimRight(s) == [] || !IsSpace(TrimRight(s)[|TrimRight(s)| - 1])
  {
    if s != [] && IsSpace(s[|s| - 1]) {
      TrimRightEdge(s[..|s| - 1]);
    }
  }

  lemma BlankConcat(a: string, b: string)
    requires Blank(a) && Blank(b)
    ensures Blank(a + b)
  {
    forall k | 0 <= k < |a + b| ensures IsSpace((a + b)[k]) {
      if k >= |a| { assert (a + b)[k] == b[k - |a|]; }
    }
  }

  /** Text that neither starts nor ends with white space is left alone. */
  lemma TrimUnchanged(s: string)
    requires s == [] || (!IsSpace(s[0]) && !IsSpace(s[|s| - 1]))
    ensures TrimLeft(s) == s && TrimRight(s) == s && Strip(s) == s
  {
  }

  /** `s.strip()`: the longest piece of `s` neither starting nor ending with white space. */
  function Strip(s: string): (r: string)
  {
    TrimRight(TrimLeft(s))
  }

  /** What `strip` removes is white space at either end. */
  lemma StripPiece(s: string)
    ensures exists i, j :: 0 <= i <= j <= |s| && Strip(s) == s[i..j] && Blank(s[..i]) && Blank(s[j..])
  {
    TrimLeftSpec(s);
    var l := TrimLeft(s);
    var i := LeadingSpaces(s);
    TrimRightSpec(l);
    var j := |l| - TrailingSpaces(l);
    PieceOfPiece(s, l, i, j);
    assert Strip(s) == s[i..i + j];
  }

  /** A piece of a suffix is a piece of the whole text. */
  lemma PieceOfPiece(s: string, l: string, i: nat, j: nat)
    requires i <= |s| && l == s[i..] && j <= |l|
    ensures l[..j] == s[i..i + j] && l[j..] == s[i + j..]
  {
  }

  /** What `strip` keeps starts and ends with something other than white space. */
  lemma StripEdges(s: string)
    ensures Strip(s) == [] || (!IsSpace(Strip(s)[0]) && !IsSpace(Strip(s)[|Strip(s)| - 1]))
  {
    var l := TrimLeft(s);
    TrimLeftEdge(s);
    TrimRightEdge(l);
    TrimRightSpec(l);
    var r := TrimRight(l);
    if r != [] {
      assert r[0] == l[0];
    }
  }

  /** Stripping twice changes nothing. */
  lemma StripIdempotent(s: string)
    ensures Strip(Strip(s)) == Strip(s)
  {
    StripEdges(s);
    TrimUnchanged(Strip(s));
  }

  function UpperChar(c: char): char
  {
    if 'a' <= c <= 'z' then (c as int - 'a' as int + 'A' as int) as char else c
  }

  /** `s.upper()` restricted to ASCII: every a-z becomes A-Z, every other character stays. */
  function Upper(s: string): (r: string)
  {
    seq(|s|, k requires 0 <= k < |s| => UpperChar(s[k]))
  }

  /** Python's `a < b` on strings: code-point lexicographic order. */
  predicate StrLess(a: string, b: string)
  {
    if a == [] then b != []
    else if b == [] then false
    else a[0] < b[0] || (a[0] == b[0] && StrLess(a[1..], b[1..]))
  }

  /** The textbook definition of lexicographic order: `a` is a proper prefix of `b`,
      or the two first differ at a position where `a` has the smaller character. */
  ghost predicate LexLess(a: string, b: string)
  {
    (|a| < |b| && a == b[..|a|]) ||
    (exists k :: 0 <= k < |a| && k < |b| && a[..k] == b[..k] && a[k] < b[k])
  }

  lemma LexLessTail(a: string, b: string)
    requires a != [] && b != [] && a[0] == b[0]
    ensures LexLess(a, b) <==> LexLess(a[1..], b[1..])
  {
    if LexLess(a, b) {
      LexLessDrop(a, b);
    }
    if LexLess(a[1..], b[1..]) {
      LexLessCons(a, b);
    }
  }

  /** Dropping an equal first character keeps the order. */
  lemma LexLessDrop(a: string, b: string)
    requires a != [] && b != [] && a[0] == b[0] && LexLess(a, b)
    ensures LexLess(a[1..], b[1..])
  {
    if |a| < |b| && a == b[..|a|] {
      assert a[1..] == b[..|a|][1..];
      assert b[..|a|][1..] == b[1..|a|];
      assert b[1..][..|a| - 1] == b[1..|a|];
    } else {
      var k :| 0 <= k < |a| && k < |b| && a[..k] == b[..k] && a[k] < b[k];
      assert k > 0;
      assert a[1..][..k - 1] == a[..k][1..];
      assert b[1..][..k - 1] == b[..k][1..];
      assert a[1..][k - 1] < b[1..][k - 1];
    }
  }

  /** Putting an equal first character in front keeps the order. */
  lemma LexLessCons(a: string, b: string)
    requires a != [] && b != [] && a[0] == b[0] && LexLess(a[1..], b[1..])
    ensures LexLess(a, b)
  {
    var a', b' := a[1..], b[1..];
    if |a'| < |b'| && a' == b'[..|a'|] {
      assert a == [a[0]] + a';
      assert b[..|a|] == [b[0]] + b'[..|a'|];
    } else {
      var k :| 0 <= k < |a'| && k < |b'| && a'[..k] == b'[..k] && a'[k] < b'[k];
      assert a[..k + 1] == [a[0]] + a'[..k];
      assert b[..k + 1] == [b[0]] + b'[..k];
      assert a[k + 1] < b[k + 1];
    }
  }

  /** `StrLess` is exactly lexicographic order. */
  lemma {:induction false} StrLessSpec(a: string, b: string)
    ensures StrLess(a, b) <==> LexLess(a, b)
  {
    if a != [] && b != [] {
      if a[0] == b[0] {
        StrLessSpec(a[1..], b[1..]);
        LexLessTail(a, b);
      } else if a[0] < b[0] {
        assert a[..0] == b[..0];
      } else {
        assert !(|a| < |b| && a == b[..|a|]) by { if |a| < |b| { assert b[..|a|][0] == b[0]; } }
        forall k | 0 < k <= |a| && k <= |b|
          ensures a[..k] != b[..k]
        {
          assert a[..k][0] != b[..k][0];
        }
      }
    } else if a != [] {
      assert !LexLess(a, b);
    }
  }

  /** The string order is a strict order. */
  lemma {:induction false} StrLessIrreflexive(a: string)
    ensures !StrLess(a, a)
  {
    if a != [] { StrLessIrreflexive(a[1..]); }
  }

  lemma {:induction false} StrLessTransitive(a: string, b: string, c: string)
    requires StrLess(a, b) && StrLess(b, c)
    ensures StrLess(a, c)
  {
    if a != [] && b != [] && c != [] && a[0] == b[0] && b[0] == c[0] {
      StrLessTransitive(a[1..], b[1..], c[1..]);
    }
  }

  /** A common prefix does not change how two strings compare. */
  lemma {:induction false} StrLessSharedPrefix(p: string, a: string, b: string)
    ensures StrLess(p + a, p + b) <==> StrLess(a, b)
  {
    if p == [] {
      assert p + a == a && p + b == b;
    } else {
      assert (p + a)[1..] == p[1..] + a;
      assert (p + b)[1..] == p[1..] + b;
      StrLessSharedPrefix(p[1..], a, b);
    }
  }

  predicate StartsWith(s: string, prefix: string)
  {
    |prefix| <= |s| && s[..|prefix|] == prefix
  }

  /** `list.index(x)`: the position of the first element equal to `x` (also the
      order in which a Counter first meets its keys). */
  function FirstIndex<T(==)>(s: seq<T>, x: T): (i: nat)
    requires x in s
    ensures i < |s| && s[i] == x && forall j :: 0 <= j < i ==> s[j] != x
  {
    if s[0] == x then 0 else 1 + FirstIndex(s[1..], x)
  }

  /** `c not in s` */
  predicate NoChar(s: string, c: char)
  {
    forall k :: 0 <= k < |s| ==> s[k] != c
  }

  predicate OccursAt(s: string, pat: string, i: int)
  {
    0 <= i && i + |pat| <= |s| && s[i..i + |pat|] == pat
  }

  /** `s.find(pat)`: the first position where `pat` occurs, or None for -1. */
  function Find(s: string, pat: string): (r: Option<nat>)
    ensures r.Some? ==> OccursAt(s, pat, r.value) && forall k :: 0 <= k < r.value ==> !OccursAt(s, pat, k)
    ensures r.None? ==> forall k :: 0 <= k <= |s| ==> !OccursAt(s, pat, k)
  {
    FindFrom(s, pat, 0)
  }

  function FindFrom(s: string, pat: string, from: nat): (r: Option<nat>)
    requires from <= |s| + 1
    requires forall k :: 0 <= k < from ==> !OccursAt(s, pat, k)
    ensures r.Some? ==> from <= r.value && OccursAt(s, pat, r.value) && forall k :: 0 <= k < r.value ==> !OccursAt(s, pat, k)
    ensures r.None? ==> forall k :: 0 <= k <= |s| ==> !OccursAt(s, pat, k)
    decreases |s| + 1 - from
  {
    if from + |pat| > |s| then
      (assert forall k :: from <= k <= |s| ==> !OccursAt(s, pat, k);
       None)
    else if s[from..from + |pat|] == pat then Some(from)
    else FindFrom(s, pat, from + 1)
  }

  /** `pat in s` */
  predicate Contains(s: string, pat: string)
  {
    Find(s, pat).Some?
  }

  /** `s.split(sep)` for a non-empty separator. */
  function Split(s: string, sep: string): (parts: seq<string>)
    requires sep != []
    ensures |parts| >= 1
    ensures |parts| >= 2 <==> Contains(s, sep)
    ensures Find(s, sep).Some? ==> parts[0] == s[..Find(s, sep).value]
    ensures Find(s, sep).None? ==> parts == [s]
    decreases |s|
  {
    match Find(s, sep)
    case None => [s]
    case Some(i) => [s[..i]] + Split(s[i + |sep|..], sep)
  }

  /** `sep.join(parts)` */
  function Join(parts: seq<string>, sep: string): string
  {
    if parts == [] then [] else if |parts| == 1 then parts[0] else parts[0] + sep + Join(parts[1..], sep)
  }

  /** Splitting loses nothing: joining the pieces again gives back the string. */
  lemma JoinCons(x: string, tail: seq<string>, sep: string)
    requires tail != []
    ensures Join([x] + tail, sep) == x + sep + Join(tail, sep)
  {
    assert ([x] + tail)[1..] == tail;
  }

  lemma SliceThree(s: string, i: nat, j: nat)
    requires i <= j <= |s|
    ensures s == s[..i] + s[i..j] + s[j..]
  {
  }

  lemma {:induction false} JoinSplit(s: string, sep: string)
    requires sep != []
    ensures Join(Split(s, sep), sep) == s
    decreases |s|
  {
    var f := Find(s, sep);
    if f.Some? {
      var i := f.value;
      var rest := s[i + |sep|..];
      var tail := Split(rest, sep);
      assert Split(s, sep) == [s[..i]] + tail;
      JoinCons(s[..i], tail, sep);
      JoinSplit(rest, sep);
      assert s[i..i + |sep|] == sep;
      SliceThree(s, i, i + |sep|);
    }
  }

  /** No piece of a split contains the separator. */
  lemma {:induction false} SplitPiecesFree(s: string, sep: string, k: nat)
    requires sep != [] && k < |Split(s, sep)|
    ensures !Contains(Split(s, sep)[k], sep)
    decreases |s|
  {
    var f := Find(s, sep);
    if f.None? {
      assert Split(s, sep) == [s];
    } else if k == 0 {
      PrefixHasNoMatch(s, sep, f.value);
    } else {
      var rest := s[f.value + |sep|..];
      var tail := Split(rest, sep);
      SplitTail(s, sep);
      assert Split(s, sep)[k] == tail[k - 1];
      SplitPiecesFree(rest, sep, k - 1);
    }
  }

  lemma SplitTail(s: string, sep: string)
    requires sep != [] && Find(s, sep).Some?
    ensures Split(s, sep) == [s[..Find(s, sep).value]] + Split(s[Find(s, sep).value + |sep|..], sep)
  {
  }

  /** The text before the first match holds no match. */
  lemma PrefixHasNoMatch(s: string, sep: string, i: nat)
    requires sep != [] && Find(s, sep) == Some(i)
    ensures !Contains(s[..i], sep)
  {
    var p := s[..i];
    if Contains(p, sep) {
      var j := Find(p, sep).value;
      assert OccursAt(p, sep, j);
      assert |p| == i && j + |sep| <= i;
      assert forall m :: j <= m < j + |sep| ==> s[m] == p[m];
      assert s[j..j + |sep|] == p[j..j + |sep|];
      assert j < i;
      assert OccursAt(s, sep, j);
      assert false;
    }
  }

  /** `s.find(pat)` is 0 when `s` starts with `pat`. */
  lemma FindAtStart(s: string, pat: string)
    requires StartsWith(s, pat)
    ensures Find(s, pat) == Some(0)
  {
    assert OccursAt(s, pat, 0);
  }

  /** Text without the first character of `pat` does not contain `pat`. */
  lemma NoLeadCharNoMatch(s: string, pat: string)
    requires pat != [] && forall k :: 0 <= k < |s| ==> s[k] != pat[0]
    ensures !Contains(s, pat)
    ensures Split(s, pat) == [s]
  {
    forall k | 0 <= k <= |s| ensures !OccursAt(s, pat, k) {
      if k < |s| && k + |pat| <= |s| {
        assert s[k..k + |pat|][0] == s[k];
      }
    }
  }

  /** Splitting `a + [c] + b` on `c`, when `a` holds no `c`, cuts right after `a`. */
  lemma SplitAtFirst(a: string, c: char, b: string)
    requires forall k :: 0 <= k < |a| ==> a[k] != c
    ensures Split(a + [c] + b, [c]) == [a] + Split(b, [c])
  {
    var s := a + [c] + b;
    assert s[|a|..|a| + 1] == [c];
    assert OccursAt(s, [c], |a|);
    forall k | 0 <= k < |a| ensures !OccursAt(s, [c], k) {
      assert s[k..k + 1][0] == s[k];
    }
    assert Find(s, [c]) == Some(|a|);
    SplitTail(s, [c]);
    assert s[..|a|] == a;
    assert s[|a| + 1..] == b;
  }

  function DigitValue(c: char): nat
    requires IsDigit(c)
  {
    c as int - '0' as int
  }

  /** The value of a string of decimal digits, most significant first. */
  function DigitsValue(s: string): nat
    requires forall k :: 0 <= k < |s| ==> IsDigit(s[k])
  {
    if s == [] then 0 else DigitsValue(s[..|s| - 1]) * 10 + DigitValue(s[|s| - 1])
  }

  function DigitChar(d: nat): (c: char)
    requires d < 10
    ensures IsDigit(c) && DigitValue(c) == d
  {
    ('0' as int + d) as char
  }

  /** `str(n)` for a non-negative Python int. */
  function NatToString(n: nat): (s: string)
    ensures s != [] && forall k :: 0 <= k < |s| ==> IsDigit(s[k])
    ensures DigitsValue(s) == n
    ensures n > 0 ==> s[0] != '0'
  {
    if n < 10 then [DigitChar(n)]
    else
      var s := NatToString(n / 10) + [DigitChar(n % 10)];
      assert s[..|s| - 1] == NatToString(n / 10);
      s
  }

  /** `str(i)` for any Python int. */
  function IntToString(i: int): string
  {
    if i < 0 then "-" + NatToString(-i) else NatToString(i)
  }
}
