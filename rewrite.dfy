/**
  The textual rewrites both code generators apply to method bodies
  (convertBody in parser.go and gopp/parser.go) and the parent-name helper.

  The one regular expression the sources use, `this\.([a-zA-Z0-9_]+) ?\(`, is
  restated as a direct scan: at each position either a call on `this` starts
  there (the keyword, a maximal run of word characters, an optional blank and
  an opening parenthesis) or the character is copied.
 */
module Rewrite {
  import opened GoStrings

  /** The character class [a-zA-Z0-9_]. */
  predicate IsWordChar(c: char) {
    'a' <= c <= 'z' || 'A' <= c <= 'Z' || '0' <= c <= '9' || c == '_'
  }

  /** The end of the run of word characters starting at i. */
  function WordEnd(s: string, i: nat): (j: nat)
    requires i <= |s|
    ensures i <= j <= |s|
    ensures forall k :: i <= k < j ==> IsWordChar(s[k])
    ensures j == |s| || !IsWordChar(s[j])
    decreases |s| - i
  {
    if i < |s| && IsWordChar(s[i]) then WordEnd(s, i + 1) else i
  }

  /** A match of the call pattern: the captured method name and the length of
      the matched text. */
  datatype Call = Call(name: string, len: nat)

  /** The call pattern matched at the start of `s`.  Only the maximal run of
      word characters can be followed by a blank or "(", so the match, when
      there is one, is unique. */
  function CallAt(s: string): (r: Option<Call>)
    ensures r.Some? ==>
      var n := |r.value.name|;
      n > 0 && HasPrefix(s, "this.") && 6 + n <= r.value.len <= |s| &&
      r.value.name == s[5..5 + n] &&
      (forall k :: 0 <= k < n ==> IsWordChar(r.value.name[k])) &&
      (r.value.len == 6 + n || (r.value.len == 7 + n && s[5 + n] == ' ')) &&
      s[r.value.len - 1] == '('
    ensures r.None? && HasPrefix(s, "this.") && 5 < |s| && IsWordChar(s[5]) ==>
      var e := WordEnd(s, 5);
      e == |s| || (s[e] != '(' && (s[e] != ' ' || e + 1 == |s| || s[e + 1] != '('))
  {
    if !HasPrefix(s, "this.") then None
    else
      var e := WordEnd(s, 5);
      if e == 5 then None
      else if e < |s| && s[e] == '(' then Some(Call(s[5..e], e + 1))
      else if e + 1 < |s| && s[e] == ' ' && s[e + 1] == '(' then Some(Call(s[5..e], e + 2))
      else None
  }

  /** regexp.ReplaceAllString with the call pattern and a template of the form
      `<pre>$1(`: every match, leftmost first and without overlap, becomes
      `pre`, the captured name and "(". */
  function ReplaceCalls(s: string, pre: string): (r: string)
    ensures !Contains(s, "this.") ==> r == s
    decreases |s|
  {
    if s == [] then []
    else match CallAt(s)
      case Some(c) => pre + c.name + "(" + ReplaceCalls(s[c.len..], pre)
      case None =>
        var r := [s[0]] + ReplaceCalls(s[1..], pre);
        assert !Contains(s, "this.") ==> !Contains(s[1..], "this.") by {
          if Contains(s[1..], "this.") {
            var k := Index(s[1..], "this.");
            assert s[1..][k..] == s[k + 1..];
            ContainsAt(s, "this.", k + 1);
          }
        }
        assert [s[0]] + s[1..] == s;
        r
  }

  /** A call on `this` is rewritten to `pre`, the method name and "(". */
  lemma CallRewritten(w: string, gap: string, rest: string, pre: string)
    requires w != [] && forall k :: 0 <= k < |w| ==> IsWordChar(w[k])
    requires gap == [] || gap == " "
    ensures ReplaceCalls("this." + w + gap + "(" + rest, pre) == pre + w + "(" + ReplaceCalls(rest, pre)
  {
    var s := "this." + w + gap + "(" + rest;
    assert HasPrefix(s, "this.");
    assert s[5..5 + |w|] == w;
    assert WordEnd(s, 5) == 5 + |w| by {
      WordEndAt(s, 5, 5 + |w|);
    }
    assert s[5 + |w| + |gap| + 1..] == rest;
  }

  lemma WordEndAt(s: string, i: nat, j: nat)
    requires i <= j <= |s|
    requires forall k :: i <= k < j ==> IsWordChar(s[k])
    requires j == |s| || !IsWordChar(s[j])
    ensures WordEnd(s, i) == j
    decreases j - i
  {
    if i < j {
      WordEndAt(s, i + 1, j);
    }
  }

  /** A run of word characters. */
  predicate IsWord(w: string) {
    forall k :: 0 <= k < |w| ==> IsWordChar(w[k])
  }

  /** A point between two characters where no rewrite can reach across: the
      left one is neither part of a name, nor the "." of `this.`, nor the ":"
      of `parent::`, nor a blank that an opening parenthesis turns into the
      optional blank of a call. */
  predicate Seam(x: char, y: char) {
    !IsWordChar(x) && x != '.' && x != ':' && (x != ' ' || y != '(')
  }

  /** A call matched at the start of `a` is matched whatever follows. */
  lemma CallAtExtends(a: string, b: string)
    requires CallAt(a).Some?
    ensures CallAt(a + b) == CallAt(a)
  {
    var s := a + b;
    assert s[..5] == a[..5];
    var e := WordEnd(a, 5);
    assert e < |a|;
    WordEndAt(s, 5, e);
    assert s[5..e] == a[5..e];
    assert s[e] == a[e];
    if e + 1 < |a| {
      assert s[e + 1] == a[e + 1];
    }
  }

  /** Across a seam, no call is matched where none was before it. */
  lemma CallAtSeam(a: string, b: string)
    requires a != [] && b != [] && CallAt(a).None?
    ensures CallAt(a + b).Some? ==> !Seam(a[|a| - 1], b[0])
  {
    var s := a + b;
    if CallAt(s).Some? {
      if |a| < 5 {
        assert s[..5] == "this.";
        assert a[|a| - 1] == s[..5][|a| - 1];
        assert IsWordChar(a[|a| - 1]);
      } else {
        assert a[..5] == s[..5];
        var e := WordEnd(a, 5);
        if e == |a| {
          assert a[|a| - 1] == '.' || IsWordChar(a[|a| - 1]);
        } else {
          WordEndAt(s, 5, e);
          assert s[e] == a[e];
          assert e + 1 == |a| && a[e] == ' ' && b[0] == '(';
        }
      }
    }
  }

  /** The call rewrite of two pieces joined at a seam is the rewrite of each. */
  lemma {:induction false} ReplaceCallsSplit(a: string, b: string, pre: string)
    requires a != [] && b != [] ==> Seam(a[|a| - 1], b[0])
    ensures ReplaceCalls(a + b, pre) == ReplaceCalls(a, pre) + ReplaceCalls(b, pre)
    decreases |a|
  {
    if a == [] {
      assert a + b == b;
    } else if b == [] {
      assert a + b == a;
    } else {
      if CallAt(a).Some? {
        var rest := a[CallAt(a).value.len..];
        assert rest != [] ==> rest[|rest| - 1] == a[|a| - 1];
        ReplaceCallsSplit(rest, b, pre);
        SplitAtCall(a, b, pre);
      } else {
        assert |a| > 1 ==> a[1..][|a| - 2] == a[|a| - 1];
        ReplaceCallsSplit(a[1..], b, pre);
        SplitAtCopy(a, b, pre);
      }
    }
  }

  /** The step of ReplaceCallsSplit at a call. */
  lemma SplitAtCall(a: string, b: string, pre: string)
    requires a != [] && CallAt(a).Some?
    requires var rest := a[CallAt(a).value.len..];
      ReplaceCalls(rest + b, pre) == ReplaceCalls(rest, pre) + ReplaceCalls(b, pre)
    ensures ReplaceCalls(a + b, pre) == ReplaceCalls(a, pre) + ReplaceCalls(b, pre)
  {
    var c := CallAt(a).value;
    ReplaceCallsUnfold(a, pre);
    CallStepJoin(a, b, pre);
    Reassociate(pre + c.name + "(", ReplaceCalls(a[c.len..], pre), ReplaceCalls(b, pre));
  }

  /** The step of ReplaceCallsSplit at a copied character. */
  lemma SplitAtCopy(a: string, b: string, pre: string)
    requires a != [] && b != [] && Seam(a[|a| - 1], b[0]) && CallAt(a).None?
    requires ReplaceCalls(a[1..] + b, pre) == ReplaceCalls(a[1..], pre) + ReplaceCalls(b, pre)
    ensures ReplaceCalls(a + b, pre) == ReplaceCalls(a, pre) + ReplaceCalls(b, pre)
  {
    ReplaceCallsUnfold(a, pre);
    CopyStepJoin(a, b, pre);
    Reassociate([a[0]], ReplaceCalls(a[1..], pre), ReplaceCalls(b, pre));
  }

  /** A call at the front of `a` is the call at the front of `a + b`. */
  lemma CallStepJoin(a: string, b: string, pre: string)
    requires a != [] && CallAt(a).Some?
    ensures var c := CallAt(a).value;
      ReplaceCalls(a + b, pre) == pre + c.name + "(" + ReplaceCalls(a[c.len..] + b, pre)
  {
    CallAtExtends(a, b);
    ReplaceCallsUnfold(a + b, pre);
    assert (a + b)[CallAt(a).value.len..] == a[CallAt(a).value.len..] + b;
  }

  /** No call at the front of `a` and a seam after it: none at the front
      of `a + b` either. */
  lemma CopyStepJoin(a: string, b: string, pre: string)
    requires a != [] && b != [] && Seam(a[|a| - 1], b[0]) && CallAt(a).None?
    ensures ReplaceCalls(a + b, pre) == [a[0]] + ReplaceCalls(a[1..] + b, pre)
  {
    CallAtSeam(a, b);
    ReplaceCallsUnfold(a + b, pre);
    assert (a + b)[1..] == a[1..] + b;
  }

  /** The call rewrite ends the text with the character it ended with: a
      rewritten call ends in "(" as the matched text did. */
  lemma {:induction false} ReplaceCallsKeepsLast(s: string, pre: string)
    requires s != []
    ensures var r := ReplaceCalls(s, pre); r != [] && r[|r| - 1] == s[|s| - 1]
    decreases |s|
  {
    if CallAt(s).Some? {
      var rest := s[CallAt(s).value.len..];
      if rest != [] {
        ReplaceCallsKeepsLast(rest, pre);
      }
      CallKeepsLast(s, pre);
    } else {
      if |s| > 1 {
        ReplaceCallsKeepsLast(s[1..], pre);
      }
      CopyKeepsLast(s, pre);
    }
  }

  /** The step of ReplaceCallsKeepsLast at a call. */
  lemma CallKeepsLast(s: string, pre: string)
    requires s != [] && CallAt(s).Some?
    requires var rest := s[CallAt(s).value.len..]; var r := ReplaceCalls(rest, pre);
      rest != [] ==> r != [] && r[|r| - 1] == rest[|rest| - 1]
    ensures var r := ReplaceCalls(s, pre); r != [] && r[|r| - 1] == s[|s| - 1]
  {
    ReplaceCallsUnfold(s, pre);
    var c := CallAt(s).value;
    var head, rest := pre + c.name + "(", s[c.len..];
    if rest != [] {
      LastOfJoin(head, ReplaceCalls(rest, pre));
      SuffixLast(s, c.len);
    } else {
      assert c.len == |s| && s[c.len - 1] == '(';
      LastOfJoin(pre + c.name, "(");
      assert ReplaceCalls(rest, pre) == [];
      assert head + [] == head;
    }
  }

  /** The step of ReplaceCallsKeepsLast at a copied character. */
  lemma CopyKeepsLast(s: string, pre: string)
    requires s != [] && CallAt(s).None?
    requires var r := ReplaceCalls(s[1..], pre); |s| > 1 ==> r != [] && r[|r| - 1] == s[|s| - 1]
    ensures var r := ReplaceCalls(s, pre); r != [] && r[|r| - 1] == s[|s| - 1]
  {
    ReplaceCallsUnfold(s, pre);
    if |s| > 1 {
      LastOfJoin([s[0]], ReplaceCalls(s[1..], pre));
    } else {
      assert s[1..] == [];
    }
  }

  /** One step of the call rewrite: a call at the front is replaced, any
      other first character is copied. */
  lemma ReplaceCallsUnfold(s: string, pre: string)
    requires s != []
    ensures CallAt(s).Some? ==>
      ReplaceCalls(s, pre) == pre + CallAt(s).value.name + "(" + ReplaceCalls(s[CallAt(s).value.len..], pre)
    ensures CallAt(s).None? ==> ReplaceCalls(s, pre) == [s[0]] + ReplaceCalls(s[1..], pre)
  {
  }

  /** parentName (gopp/parser.go), and the "last item" of the extends name that
      convertBody and outReflect compute: the text after the last ".". */
  function ParentName(ext: string): (r: string)
    ensures '.' !in r
    ensures |r| <= |ext| && r == ext[|ext| - |r|..]
    ensures '.' !in ext ==> r == ext
  {
    var parts := Split(ext, '.');
    JoinLast(parts, ".");
    if '.' !in ext then
      SplitNoSep(ext, '.');
      parts[|parts| - 1]
    else parts[|parts| - 1]
  }

  lemma {:induction false} JoinLast(parts: seq<string>, sep: string)
    requires |parts| >= 1
    ensures var j := Join(parts, sep);
      var l := parts[|parts| - 1];
      |l| <= |j| && j[|j| - |l|..] == l
    decreases |parts|
  {
    if |parts| > 1 {
      JoinLast(parts[1..], sep);
      var tail := Join(parts[1..], sep);
      var l := parts[|parts| - 1];
      assert Join(parts, sep) == parts[0] + sep + tail;
      assert (parts[0] + sep + tail)[|parts[0] + sep + tail| - |l|..] == tail[|tail| - |l|..];
    }
  }

  /** A qualified parent name loses its package. */
  lemma ParentNameQualified(pkg: string, n: string)
    requires '.' !in pkg && '.' !in n
    ensures ParentName(pkg + "." + n) == n
  {
    assert pkg + "." + n == pkg + ['.'] + n;
    SplitPrefix(pkg, n, '.');
    SplitNoSep(n, '.');
  }

  /** Stripping the package qualifier twice changes nothing. */
  lemma ParentNameIdempotent(ext: string)
    ensures ParentName(ParentName(ext)) == ParentName(ext)
  {
  }

  /** The template of the call rewrite in parser.go: `this.I_().(<name>).$1(`. */
  function LegacyCallPrefix(name: string): string {
    "this.I_().(" + name + ")."
  }

  /** convertBody of parser.go: calls on `this` go through the interface,
      then `parent::` becomes the embedded parent struct `this.<parent>_.`. */
  function LegacyConvert(s: string, name: string, ext: string): (r: string)
    ensures !Contains(s, "this.") && !Contains(s, "parent::") ==> r == s
  {
    ReplaceAll(ReplaceCalls(s, LegacyCallPrefix(name)), "parent::", "this." + ParentName(ext) + "_.")
  }

  /** The template of the call rewrite in gopp/parser.go: `<recv>.I().(<name>I).$1(`. */
  function GoppCallPrefix(receiver: string, name: string): string {
    receiver + ".I().(" + name + "I)."
  }

  /** convertBody of gopp/parser.go: the three rewrites in their order -
      calls on `this` through the interface, `parent::` to the embedded parent,
      then every remaining `this.` to the receiver. */
  function GoppConvert(s: string, receiver: string, name: string, ext: string): (r: string)
    ensures !Contains(s, "this.") && !Contains(s, "parent::") ==> r == s
  {
    var calls := ReplaceCalls(s, GoppCallPrefix(receiver, name));
    var parents := ReplaceAll(calls, "parent::", receiver + "." + ParentName(ext) + ".");
    ReplaceAll(parents, "this.", receiver + ".")
  }

  /** A method call on `this`, with or without the blank before "(", is
      dispatched through the interface by the first rewrite; the later
      rewrites leave the generated call alone when it holds neither pattern,
      so the order of the rewrites matters. */
  lemma GoppCallThroughInterface(w: string, gap: string, receiver: string, name: string, ext: string)
    requires w != [] && IsWord(w) && (gap == [] || gap == " ")
    requires var g := GoppCallPrefix(receiver, name) + w + "(";
      !Contains(g, "this.") && !Contains(g, "parent::")
    ensures GoppConvert("this." + w + gap + "(", receiver, name, ext) == GoppCallPrefix(receiver, name) + w + "("
  {
    CallRewritten(w, gap, [], GoppCallPrefix(receiver, name));
    assert "this." + w + gap + "(" + [] == "this." + w + gap + "(";
    assert GoppCallPrefix(receiver, name) + w + "(" + [] == GoppCallPrefix(receiver, name) + w + "(";
  }

  /** The same call in parser.go's rewrite. */
  lemma LegacyCallThroughInterface(w: string, gap: string, name: string, ext: string)
    requires w != [] && IsWord(w) && (gap == [] || gap == " ")
    requires !Contains(LegacyCallPrefix(name) + w + "(", "parent::")
    ensures LegacyConvert("this." + w + gap + "(", name, ext) == LegacyCallPrefix(name) + w + "("
  {
    CallRewritten(w, gap, [], LegacyCallPrefix(name));
    assert "this." + w + gap + "(" + [] == "this." + w + gap + "(";
    assert LegacyCallPrefix(name) + w + "(" + [] == LegacyCallPrefix(name) + w + "(";
  }
}
