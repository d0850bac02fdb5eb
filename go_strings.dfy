/**
  The handful of Go standard-library string operations the translator relies on
  (package strings, unicode.IsSpace), stated over `seq<char>`.  One char stands
  for one byte of the Go string, so a rune always has width 1.
 */
module GoStrings {

  datatype Option<T> = None | Some(value: T)

  /** strings.HasPrefix */
  predicate HasPrefix(s: string, p: string) {
    |p| <= |s| && s[..|p|] == p
  }

  /** strings.Index: the first position at which `p` occurs in `s`, or -1. */
  function Index(s: string, p: string): (r: int)
    ensures -1 <= r <= |s|
    ensures r >= 0 ==> HasPrefix(s[r..], p)
    ensures r >= 0 ==> forall j :: 0 <= j < r ==> !HasPrefix(s[j..], p)
    ensures r < 0 ==> forall j :: 0 <= j <= |s| ==> !HasPrefix(s[j..], p)
    decreases |s|
  {
    if HasPrefix(s, p) then 0
    else if s == [] then -1
    else
      var k := Index(s[1..], p);
      assert forall j :: 1 <= j <= |s| ==> s[j..] == s[1..][j - 1..];
      if k < 0 then -1 else k + 1
  }

  /** strings.Contains */
  predicate Contains(s: string, p: string) {
    Index(s, p) >= 0
  }

  lemma ContainsAt(s: string, p: string, j: nat)
    requires j <= |s| && HasPrefix(s[j..], p)
    ensures Contains(s, p)
  {
  }

  /** What a string contains, a longer one contains too. */
  lemma ContainsLeft(a: string, s: string, p: string)
    requires Contains(s, p)
    ensures Contains(a + s, p)
  {
    var j := Index(s, p);
    assert (a + s)[|a| + j..] == s[j..];
    ContainsAt(a + s, p, |a| + j);
  }

  lemma ContainsRight(s: string, b: string, p: string)
    requires Contains(s, p)
    ensures Contains(s + b, p)
  {
    var j := Index(s, p);
    assert (s + b)[j..][..|p|] == s[j..][..|p|];
    ContainsAt(s + b, p, j);
  }

  lemma ContainsSelf(p: string)
    ensures Contains(p, p)
  {
    ContainsAt(p, p, 0);
  }

  /** The first occurrence pins down Index. */
  lemma IndexIs(s: string, p: string, j: nat)
    requires j <= |s| && HasPrefix(s[j..], p)
    requires forall k :: 0 <= k < j ==> !HasPrefix(s[k..], p)
    ensures Index(s, p) == j
  {
  }

  /** strings.LastIndex for a one-character pattern (used with ")"). */
  function LastIndexOf(s: string, c: char): (r: int)
    ensures -1 <= r < |s|
    ensures r >= 0 ==> s[r] == c && forall j :: r < j < |s| ==> s[j] != c
    ensures r < 0 ==> c !in s
    decreases |s|
  {
    if s == [] then -1
    else if s[|s| - 1] == c then |s| - 1
    else LastIndexOf(s[..|s| - 1], c)
  }

  /** The last `c` is the one after which no `c` follows. */
  lemma LastIndexAt(a: string, c: char, b: string)
    requires c !in b
    ensures LastIndexOf(a + [c] + b, c) == |a|
  {
    var s := a + [c] + b;
    assert s[|a|] == c;
    LastIndexBeyond(a, c, b);
  }

  /** A last `c` after the one between a and b is a `c` of b. */
  lemma LastIndexBeyond(a: string, c: char, b: string)
    ensures LastIndexOf(a + [c] + b, c) > |a| ==> c in b
  {
    var s := a + [c] + b;
    var r := LastIndexOf(s, c);
    if r > |a| {
      assert s[r] == b[r - |a| - 1];
    }
  }

  /** strings.Join */
  function Join(parts: seq<string>, sep: string): string
    decreases |parts|
  {
    if |parts| == 0 then []
    else if |parts| == 1 then parts[0]
    else parts[0] + sep + Join(parts[1..], sep)
  }

  /** strings.Split with a one-character separator.  Splitting the empty string
      gives one empty piece, as in Go. */
  function Split(s: string, sep: char): (r: seq<string>)
    ensures |r| >= 1
    ensures forall i :: 0 <= i < |r| ==> sep !in r[i]
    ensures Join(r, [sep]) == s
    decreases |s|
  {
    if s == [] then [[]]
    else
      var rest := Split(s[1..], sep);
      if s[0] == sep then
        [[]] + rest
      else
        var r := [[s[0]] + rest[0]] + rest[1..];
        assert r[1..] == rest[1..];
        r
  }

  /** The pieces of a join are the pieces it was made of, when none contains
      the separator. */
  lemma {:induction false} SplitJoin(parts: seq<string>, sep: char)
    requires |parts| >= 1
    requires forall i :: 0 <= i < |parts| ==> sep !in parts[i]
    ensures Split(Join(parts, [sep]), sep) == parts
    decreases |parts|
  {
    if |parts| == 1 {
      SplitNoSep(parts[0], sep);
    } else {
      SplitJoin(parts[1..], sep);
      SplitPrefix(parts[0], Join(parts[1..], [sep]), sep);
    }
  }

  lemma {:induction false} SplitNoSep(s: string, sep: char)
    requires sep !in s
    ensures Split(s, sep) == [s]
    decreases |s|
  {
    if s != [] {
      SplitNoSep(s[1..], sep);
      assert [s[0]] + s[1..] == s;
    }
  }

  lemma {:induction false} SplitPrefix(a: string, b: string, sep: char)
    requires sep !in a
    ensures Split(a + [sep] + b, sep) == [a] + Split(b, sep)
    decreases |a|
  {
    var s := a + [sep] + b;
    if a == [] {
      assert s[1..] == b;
    } else {
      assert s[1..] == a[1..] + [sep] + b;
      SplitPrefix(a[1..], b, sep);
      assert [a[0]] + a[1..] == a;
    }
  }

  /** The characters unicode.IsSpace accepts. */
  const WhiteSet: set<char> := {
    ' ', '\t', '\n', '\r', '\U{B}', '\U{C}', '\U{85}', '\U{A0}', '\U{1680}',
    '\U{2000}', '\U{2001}', '\U{2002}', '\U{2003}', '\U{2004}', '\U{2005}',
    '\U{2006}', '\U{2007}', '\U{2008}', '\U{2009}', '\U{200A}',
    '\U{2028}', '\U{2029}', '\U{202F}', '\U{205F}', '\U{3000}'}

  /** unicode.IsSpace */
  predicate IsWhite(c: char) {
    c in WhiteSet
  }

  /** strings.Fields(s)[0] when there is one: the first run of non-white characters. */
  function FirstField(s: string): (r: Option<string>)
    ensures r.None? <==> forall i :: 0 <= i < |s| ==> IsWhite(s[i])
    ensures r.Some? ==> r.value != [] && (forall i :: 0 <= i < |r.value| ==> !IsWhite(r.value[i]))
    decreases |s|
  {
    if s == [] then None
    else if IsWhite(s[0]) then
      var r := FirstField(s[1..]);
      assert forall i :: 1 <= i < |s| ==> s[i] == s[1..][i - 1];
      r
    else Some(Word(s))
  }

  /** The leading run of non-white characters. */
  function Word(s: string): (r: string)
    ensures HasPrefix(s, r)
    ensures forall i :: 0 <= i < |r| ==> !IsWhite(r[i])
    ensures |r| == |s| || IsWhite(s[|r|])
    decreases |s|
  {
    if s == [] || IsWhite(s[0]) then []
    else [s[0]] + Word(s[1..])
  }

  /** FirstField skips white space and then takes a whole word. */
  lemma {:induction false} FirstFieldOf(lead: string, w: string, rest: string)
    requires forall i :: 0 <= i < |lead| ==> IsWhite(lead[i])
    requires w != [] && forall i :: 0 <= i < |w| ==> !IsWhite(w[i])
    requires rest == [] || IsWhite(rest[0])
    ensures FirstField(lead + w + rest) == Some(w)
    decreases |lead|
  {
    if lead == [] {
      assert lead + w + rest == w + rest;
      WordOf(w, rest);
    } else {
      assert (lead + w + rest)[1..] == lead[1..] + w + rest;
      FirstFieldOf(lead[1..], w, rest);
    }
  }

  lemma {:induction false} WordOf(w: string, rest: string)
    requires forall i :: 0 <= i < |w| ==> !IsWhite(w[i])
    requires rest == [] || IsWhite(rest[0])
    ensures Word(w + rest) == w
    decreases |w|
  {
    if w != [] {
      assert (w + rest)[1..] == w[1..] + rest;
      WordOf(w[1..], rest);
    }
  }

  /** strings.TrimLeft with a cut set. */
  function TrimLeft(s: string, cut: set<char>): (r: string)
    ensures |r| <= |s| && r == s[|s| - |r|..]
    ensures r == [] || r[0] !in cut
    ensures forall i :: 0 <= i < |s| - |r| ==> s[i] in cut
    decreases |s|
  {
    if s != [] && s[0] in cut then
      var r := TrimLeft(s[1..], cut);
      assert s[1..][|s| - 1 - |r|..] == s[|s| - |r|..];
      r
    else s
  }

  /** strings.TrimRight with a cut set. */
  function TrimRight(s: string, cut: set<char>): (r: string)
    ensures |r| <= |s| && r == s[..|r|]
    ensures r == [] || r[|r| - 1] !in cut
    ensures forall i :: |r| <= i < |s| ==> s[i] in cut
    decreases |s|
  {
    if s != [] && s[|s| - 1] in cut then
      var r := TrimRight(s[..|s| - 1], cut);
      r
    else s
  }

  /** `r` occurs in `s` starting at `i`. */
  predicate InfixAt(r: string, s: string, i: int) {
    0 <= i <= |s| - |r| && r == s[i..i + |r|]
  }

  /** strings.Trim: both ends stripped of every character of the cut set. */
  function Trim(s: string, cut: set<char>): (r: string)
    ensures exists i :: InfixAt(r, s, i)
    ensures r == [] || (r[0] !in cut && r[|r| - 1] !in cut)
  {
    var l := TrimLeft(s, cut);
    var r := TrimRight(l, cut);
    PrefixOfSuffix(s, l, r);
    r
  }

  /** A prefix of a suffix of s sits inside s where the suffix starts. */
  lemma PrefixOfSuffix(s: string, l: string, r: string)
    requires |l| <= |s| && l == s[|s| - |l|..]
    requires |r| <= |l| && r == l[..|r|]
    ensures InfixAt(r, s, |s| - |l|)
    ensures r != [] ==> r[0] == l[0]
  {
  }

  /** Trimming text that neither starts nor ends with a cut character between
      runs of cut characters gives back that text. */
  lemma TrimAround(lead: string, mid: string, tail: string, cut: set<char>)
    requires forall i :: 0 <= i < |lead| ==> lead[i] in cut
    requires forall i :: 0 <= i < |tail| ==> tail[i] in cut
    requires mid != [] && mid[0] !in cut && mid[|mid| - 1] !in cut
    ensures Trim(lead + mid + tail, cut) == mid
  {
    TrimLeftOf(lead, mid + tail, cut);
    assert lead + mid + tail == lead + (mid + tail);
    TrimRightOf(mid, tail, cut);
  }

  lemma {:induction false} TrimLeftOf(lead: string, rest: string, cut: set<char>)
    requires forall i :: 0 <= i < |lead| ==> lead[i] in cut
    requires rest == [] || rest[0] !in cut
    ensures TrimLeft(lead + rest, cut) == rest
    decreases |lead|
  {
    if lead != [] {
      assert (lead + rest)[1..] == lead[1..] + rest;
      TrimLeftOf(lead[1..], rest, cut);
    }
  }

  lemma {:induction false} TrimRightOf(body: string, tail: string, cut: set<char>)
    requires forall i :: 0 <= i < |tail| ==> tail[i] in cut
    requires body == [] || body[|body| - 1] !in cut
    ensures TrimRight(body + tail, cut) == body
    decreases |tail|
  {
    if tail != [] {
      assert (body + tail)[..|body + tail| - 1] == body + tail[..|tail| - 1];
      TrimRightOf(body, tail[..|tail| - 1], cut);
    } else {
      assert body + tail == body;
    }
  }

  /** strings.TrimSpace */
  function TrimSpace(s: string): (r: string)
    ensures exists i :: InfixAt(r, s, i)
    ensures r == [] || (!IsWhite(r[0]) && !IsWhite(r[|r| - 1]))
  {
    Trim(s, WhiteSet)
  }

  /** strings.Replace(s, pat, rep, -1): every non-overlapping occurrence of
      `pat`, scanning left to right, replaced by `rep`. */
  function ReplaceAll(s: string, pat: string, rep: string): (r: string)
    requires pat != []
    ensures !Contains(s, pat) ==> r == s
    decreases |s|
  {
    if s == [] then []
    else if HasPrefix(s, pat) then rep + ReplaceAll(s[|pat|..], pat, rep)
    else
      var r := [s[0]] + ReplaceAll(s[1..], pat, rep);
      assert !Contains(s, pat) ==> !Contains(s[1..], pat) by {
        if Contains(s[1..], pat) {
          var k := Index(s[1..], pat);
          assert s[1..][k..] == s[k + 1..];
          ContainsAt(s, pat, k + 1);
        }
      }
      assert [s[0]] + s[1..] == s;
      r
  }

  /** No occurrence of `p` in `a + b` starts inside `a` and ends inside `b`. */
  predicate NoStraddle(a: string, b: string, p: string) {
    forall j :: 0 <= j < |a| < j + |p| ==> !HasPrefix((a + b)[j..], p)
  }

  /** Joining is associative. */
  lemma Reassociate(x: string, y: string, z: string)
    ensures x + (y + z) == x + y + z
  {
  }

  /** A join ends where its non-empty right side ends. */
  lemma LastOfJoin(x: string, y: string)
    requires y != []
    ensures x + y != [] && (x + y)[|x + y| - 1] == y[|y| - 1]
  {
  }

  /** A non-empty suffix ends where the text ends. */
  lemma SuffixLast(s: string, k: nat)
    requires k < |s|
    ensures s[k..] != [] && s[k..][|s[k..]| - 1] == s[|s| - 1]
  {
  }

  /** One step of the scan: an occurrence at the front is replaced, any
      other first character is copied. */
  lemma ReplaceAllStep(s: string, pat: string, rep: string)
    requires s != [] && pat != []
    ensures HasPrefix(s, pat) ==> ReplaceAll(s, pat, rep) == rep + ReplaceAll(s[|pat|..], pat, rep)
    ensures !HasPrefix(s, pat) ==> ReplaceAll(s, pat, rep) == [s[0]] + ReplaceAll(s[1..], pat, rep)
  {
  }

  /** Dropping the front of the first piece keeps the pieces unspanned. */
  lemma NoStraddleDrop(a: string, b: string, pat: string, d: nat)
    requires d <= |a| && NoStraddle(a, b, pat)
    ensures NoStraddle(a[d..], b, pat)
  {
    forall j | 0 <= j < |a[d..]| < j + |pat|
      ensures !HasPrefix((a[d..] + b)[j..], pat)
    {
      assert (a[d..] + b)[j..] == (a + b)[j + d..];
    }
  }

  /** One step of the scan on `a + b` is the same step on `a`, as long as
      no occurrence spans the seam. */
  lemma ReplaceAllHead(a: string, b: string, pat: string, rep: string)
    requires a != [] && pat != [] && NoStraddle(a, b, pat)
    ensures HasPrefix(a, pat) ==> ReplaceAll(a + b, pat, rep) == rep + ReplaceAll(a[|pat|..] + b, pat, rep)
    ensures !HasPrefix(a, pat) ==> ReplaceAll(a + b, pat, rep) == [a[0]] + ReplaceAll(a[1..] + b, pat, rep)
  {
    if |pat| <= |a| {
      assert (a + b)[..|pat|] == a[..|pat|];
    } else {
      assert (a + b)[0..] == a + b;
    }
    if HasPrefix(a, pat) {
      assert (a + b)[|pat|..] == a[|pat|..] + b;
    } else {
      assert (a + b)[1..] == a[1..] + b;
    }
  }

  /** Replacing in two pieces that no occurrence spans is replacing in each:
      the leftmost-first scan reaches the seam exactly. */
  lemma {:induction false} ReplaceAllSplit(a: string, b: string, pat: string, rep: string)
    requires pat != [] && NoStraddle(a, b, pat)
    ensures ReplaceAll(a + b, pat, rep) == ReplaceAll(a, pat, rep) + ReplaceAll(b, pat, rep)
    decreases |a|
  {
    if a == [] {
      assert a + b == b;
    } else {
      ReplaceAllHead(a, b, pat, rep);
      ReplaceAllStep(a, pat, rep);
      if HasPrefix(a, pat) {
        NoStraddleDrop(a, b, pat, |pat|);
        ReplaceAllSplit(a[|pat|..], b, pat, rep);
        Reassociate(rep, ReplaceAll(a[|pat|..], pat, rep), ReplaceAll(b, pat, rep));
      } else {
        NoStraddleDrop(a, b, pat, 1);
        ReplaceAllSplit(a[1..], b, pat, rep);
        Reassociate([a[0]], ReplaceAll(a[1..], pat, rep), ReplaceAll(b, pat, rep));
      }
    }
  }

  /** A piece whose last character appears in `p` at most as its last one
      cannot hold the start of an occurrence that runs past it. */
  lemma NoStraddleAt(a: string, b: string, p: string)
    requires a != [] && p != [] && a[|a| - 1] !in p[..|p| - 1]
    ensures NoStraddle(a, b, p)
  {
    forall j | 0 <= j < |a| < j + |p|
      ensures !HasPrefix((a + b)[j..], p)
    {
      StraddleHolds(a, b, p, j);
    }
  }

  /** An occurrence that starts at `j` in `a` and runs past it holds the
      last character of `a` before its own end. */
  lemma StraddleHolds(a: string, b: string, p: string, j: nat)
    requires j < |a| < j + |p|
    ensures HasPrefix((a + b)[j..], p) ==> a[|a| - 1] in p[..|p| - 1]
  {
    if HasPrefix((a + b)[j..], p) {
      var k := |a| - 1 - j;
      assert (a + b)[j..][k] == a[|a| - 1];
      assert p[..|p| - 1][k] == p[k];
    }
  }

  /** The step the scan takes at an occurrence: when no occurrence starts in
      `a` or runs from it into `pat`, the text before is copied and the
      occurrence replaced. */
  lemma ReplaceAllAt(a: string, pat: string, b: string, rep: string)
    requires pat != [] && !Contains(a + pat[..|pat| - 1], pat)
    ensures ReplaceAll(a + pat + b, pat, rep) == a + rep + ReplaceAll(b, pat, rep)
  {
    NoStraddleBefore(a, pat, b);
    ReplaceAllSplit(a, pat + b, pat, rep);
    ContainsRightImplies(a, pat[..|pat| - 1], pat);
    ReplaceAllFront(pat, b, rep);
    Reassociate(a, pat, b);
    Reassociate(a, rep, ReplaceAll(b, pat, rep));
  }

  /** No occurrence runs from `a` into the `pat` after it. */
  lemma NoStraddleBefore(a: string, pat: string, b: string)
    requires pat != [] && !Contains(a + pat[..|pat| - 1], pat)
    ensures NoStraddle(a, pat + b, pat)
  {
    forall j | 0 <= j < |a| < j + |pat|
      ensures !HasPrefix((a + (pat + b))[j..], pat)
    {
      StraddleInside(a, pat, b, j);
    }
  }

  /** An occurrence that starts in `a` and runs into the `pat` after it ends
      before that `pat` does. */
  lemma StraddleInside(a: string, pat: string, b: string, j: nat)
    requires j < |a| < j + |pat|
    ensures HasPrefix((a + (pat + b))[j..], pat) ==> Contains(a + pat[..|pat| - 1], pat)
  {
    if HasPrefix((a + (pat + b))[j..], pat) {
      var c := a + pat[..|pat| - 1];
      assert (a + (pat + b))[j..][..|pat|] == c[j..][..|pat|];
      ContainsAt(c, pat, j);
    }
  }

  lemma ContainsRightImplies(s: string, b: string, p: string)
    ensures Contains(s, p) ==> Contains(s + b, p)
  {
    if Contains(s, p) {
      ContainsRight(s, b, p);
    }
  }

  /** Unless the text ends the way `pat` does, its last character survives
      the replacement. */
  lemma {:induction false} ReplaceAllKeepsLast(s: string, pat: string, rep: string)
    requires pat != [] && s != [] && s[|s| - 1] != pat[|pat| - 1]
    ensures var r := ReplaceAll(s, pat, rep); r != [] && r[|r| - 1] == s[|s| - 1]
    decreases |s|
  {
    if HasPrefix(s, pat) {
      MatchLeavesRest(s, pat);
      ReplaceAllKeepsLast(s[|pat|..], pat, rep);
      ReplaceAllStep(s, pat, rep);
      LastOfJoin(rep, ReplaceAll(s[|pat|..], pat, rep));
    } else {
      if |s| > 1 {
        ReplaceAllKeepsLast(s[1..], pat, rep);
      }
      CopyKeepsLastChar(s, pat, rep);
    }
  }

  /** An occurrence at the front that does not end where the text ends
      leaves the rest of the text, which ends as the text does. */
  lemma MatchLeavesRest(s: string, pat: string)
    requires pat != [] && s != [] && s[|s| - 1] != pat[|pat| - 1] && HasPrefix(s, pat)
    ensures |pat| < |s| && s[|pat|..] != [] && s[|pat|..][|s| - |pat| - 1] == s[|s| - 1]
    ensures s[|pat|..][|s| - |pat| - 1] != pat[|pat| - 1]
  {
    assert s[..|pat|][|pat| - 1] == s[|pat| - 1];
  }

  /** The step of ReplaceAllKeepsLast at a copied character. */
  lemma CopyKeepsLastChar(s: string, pat: string, rep: string)
    requires pat != [] && s != [] && !HasPrefix(s, pat)
    requires var r := ReplaceAll(s[1..], pat, rep); |s| > 1 ==> r != [] && r[|r| - 1] == s[|s| - 1]
    ensures var r := ReplaceAll(s, pat, rep); r != [] && r[|r| - 1] == s[|s| - 1]
  {
    ReplaceAllStep(s, pat, rep);
    if |s| > 1 {
      LastOfJoin([s[0]], ReplaceAll(s[1..], pat, rep));
    } else {
      assert s[1..] == [];
    }
  }

  /** Replacing at a seam whose left character `x` the pattern holds at most
      as its last, and not there either: each side is replaced on its own,
      and the left one keeps `x` last. */
  lemma ReplaceAllSeam(s: string, a: string, b: string, x: char, pat: string, rep: string)
    requires s == a + b && a != [] && a[|a| - 1] == x
    requires pat != [] && x !in pat[..|pat| - 1] && x != pat[|pat| - 1]
    ensures ReplaceAll(s, pat, rep) == ReplaceAll(a, pat, rep) + ReplaceAll(b, pat, rep)
    ensures var r := ReplaceAll(a, pat, rep); r != [] && r[|r| - 1] == x
  {
    NoStraddleAt(a, b, pat);
    ReplaceAllSplit(a, b, pat, rep);
    ReplaceAllKeepsLast(a, pat, rep);
  }

  /** Two replacements in a row, at a seam neither pattern can cross. */
  lemma ReplaceTwiceSeam(s: string, a: string, b: string, x: char, p: string, r: string, q: string, u: string)
    requires s == a + b && a != [] && a[|a| - 1] == x && p != [] && q != []
    requires x !in p[..|p| - 1] && x != p[|p| - 1]
    requires x !in q[..|q| - 1] && x != q[|q| - 1]
    ensures ReplaceAll(ReplaceAll(s, p, r), q, u)
      == ReplaceAll(ReplaceAll(a, p, r), q, u) + ReplaceAll(ReplaceAll(b, p, r), q, u)
  {
    ReplaceAllSeam(s, a, b, x, p, r);
    var s', a', b' := ReplaceAll(s, p, r), ReplaceAll(a, p, r), ReplaceAll(b, p, r);
    ReplaceAllSeam(s', a', b', x, q, u);
  }

  /** An occurrence at the very start is replaced. */
  lemma ReplaceAllFront(pat: string, x: string, rep: string)
    requires pat != []
    ensures ReplaceAll(pat + x, pat, rep) == rep + ReplaceAll(x, pat, rep)
  {
    assert (pat + x)[..|pat|] == pat && (pat + x)[|pat|..] == x;
  }

  /** A text that holds the pattern holds each of its characters. */
  lemma ContainsChar(s: string, p: string, i: nat)
    requires i < |p|
    ensures Contains(s, p) ==> p[i] in s
  {
    if Contains(s, p) {
      var j := Index(s, p);
      assert s[j..][..|p|][i] == s[j + i];
    }
  }

  /** ASCII case folding of one character (strings.ToLower on a one-byte string). */
  function ToLower(c: char): (r: char)
    ensures !('A' <= r <= 'Z')
    ensures !('A' <= c <= 'Z') ==> r == c
  {
    if 'A' <= c <= 'Z' then (c as int + 32) as char else c
  }

  /** The decimal text of an integer, as the Go runtime prints an index. */
  function Decimal(n: int): (r: string)
    ensures r != []
    decreases if n < 0 then 1 - n else n
  {
    if n < 0 then "-" + Decimal(-n)
    else if n < 10 then [('0' as int + n) as char]
    else Decimal(n / 10) + Decimal(n % 10)
  }
}
