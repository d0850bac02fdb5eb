/**
  ProcessString (gopp/main.go:48-56): the translator as the composition of the
  lexer, the parser and ast.String, and the pass-through of input that holds
  no class: text and block comments come out exactly as they went in.
 */
module Translate {
  import opened GoStrings
  import opened Items
  import L = LexSpec
  import opened Gopp
  import GoppProperties

  /** The generated Go text and the registry the parse leaves behind (the
      registry is a global that outlives one call). */
  datatype Translation = Translation(text: string, classes: Classes)

  /** lex, then parse, then ast.String.  A panic or a hang anywhere is the
      outcome of the whole call.  The lexer runs beside the parser and hands
      each item over on an unbuffered channel: once the parser has taken the
      last item, a lexer that then crashes takes the program down, whatever
      the parser and the printer go on to do. */
  function ProcessString(input: string, reg: Classes): (r: Outcome<Translation>)
    ensures r.Done? ==> Parse(L.Lex(input), reg).Done?
    ensures r.Done? ==>
      var p := Parse(L.Lex(input), reg).value;
      r.value.classes == Registered(reg, p.nodes) && AstText(p.nodes) == Done(r.value.text) &&
      (L.Lex(input).ending.Crashed? ==> p.next < |L.Lex(input).items|)
  {
    var st := L.Lex(input);
    var p := Parse(st, reg);
    GoppProperties.ParseRegisters(st, reg);
    if !p.Done? then Propagate(p)
    else if p.value.next == |st.items| && st.ending.Crashed? then Panicked(st.ending.msg)
    else
      var t := AstText(p.value.nodes);
      if t.Done? then Done(Translation(t.value, p.value.classes)) else Propagate(t)
  }

  // ---------------------------------------------------------------------
  // Parsing a stream that holds no class

  /** Items that parse copies to its output: text, and comments it attaches
      to the following text. */
  predicate Passive(t: Token) {
    t.kind == Text || t.kind == Comment || t.kind == LineComment
  }

  /** A stream of passive items, then EOF, then the closed channel. */
  predicate Passes(st: Stream) {
    |st.items| > 0 && st.items[|st.items| - 1].kind == EOF && st.ending.Closed? &&
    forall i :: 0 <= i < |st.items| - 1 ==> Passive(st.items[i])
  }

  /** One more literal node of ast.String. */
  lemma AstTextSnoc(out: seq<NodeValue>, s: string)
    requires AstText(out).Done?
    ensures AstText(out + [StringerValue(s)]) == Done(AstText(out).value + s)
  {
    assert (out + [StringerValue(s)])[..|out|] == out;
  }

  /** The text of a run of items is its first item's text, then the rest. */
  lemma JoinedFront(ts: seq<Token>)
    requires ts != []
    ensures Joined(ts) == ts[0].val + Joined(ts[1..])
  {
    assert ts == [ts[0]] + ts[1..];
    JoinedAppend([ts[0]], ts[1..]);
    assert [ts[0]][..0] == [];
  }

  /** At EOF parse prints the pending comments and stops. */
  lemma PassiveEnd(st: Stream, comment: string, out: seq<NodeValue>, reg: Classes)
    requires Passes(st) && AstText(out).Done?
    ensures var r := ParseFrom(st, |st.items| - 1, comment, out, reg);
      r.Done? && r.value.classes == reg && r.value.next == |st.items| &&
      AstText(r.value.nodes) == Done(AstText(out).value + comment)
  {
    var k := |st.items| - 1;
    assert ReadAt(st, k) == Got(st.items[k]);
    var tail := if |comment| > 0 then [StringerValue(comment)] else [];
    assert ParseRound(st, k, comment, out, reg) == Stop(Done(Parsed(out + tail, reg, k + 1)));
    if |comment| > 0 {
      AstTextSnoc(out, comment);
    } else {
      assert out + tail == out;
      assert AstText(out).value + comment == AstText(out).value;
    }
  }

  /** Before EOF parse turns text into a node and gathers comments. */
  lemma PassiveRound(st: Stream, k: nat, comment: string, out: seq<NodeValue>, reg: Classes)
    requires Passes(st) && k < |st.items| - 1
    ensures ParseFrom(st, k, comment, out, reg) ==
      ParseFrom(st, k + 1, CarriedComment(st.items[k], comment), CarriedOut(st.items[k], comment, out), reg)
  {
    var t := st.items[k];
    assert ReadAt(st, k) == Got(t);
    assert Passive(t);
    assert ParseRound(st, k, comment, out, reg) ==
      Next(k + 1, CarriedComment(t, comment), CarriedOut(t, comment, out), reg);
  }

  /** From item k on, parse prints the pending comments and the items' texts
      in their order, stops just past EOF, and registers nothing. */
  predicate PrintsAs(st: Stream, k: nat, comment: string, out: seq<NodeValue>, reg: Classes, r: Outcome<Parsed>)
    requires k < |st.items|
  {
    AstText(out).Done? && r.Done? && r.value.classes == reg && r.value.next == |st.items| &&
    AstText(r.value.nodes) == Done(AstText(out).value + comment + Joined(st.items[k..|st.items| - 1]))
  }

  /** The ast and the pending comment parse goes on with after item t. */
  function CarriedOut(t: Token, comment: string, out: seq<NodeValue>): seq<NodeValue> {
    if t.kind == Text then out + [StringerValue(comment + t.val)] else out
  }

  function CarriedComment(t: Token, comment: string): string {
    if t.kind == Text then "" else comment + t.val
  }

  lemma {:induction false} PassiveFrom(st: Stream, k: nat, comment: string, out: seq<NodeValue>, reg: Classes)
    requires Passes(st) && k < |st.items| && AstText(out).Done?
    ensures PrintsAs(st, k, comment, out, reg, ParseFrom(st, k, comment, out, reg))
    decreases |st.items| - k
  {
    if k == |st.items| - 1 {
      PassiveEnd(st, comment, out, reg);
      assert st.items[k..k] == [];
      assert AstText(out).value + comment + "" == AstText(out).value + comment;
    } else {
      var out2, comment2 := CarriedOut(st.items[k], comment, out), CarriedComment(st.items[k], comment);
      if st.items[k].kind == Text {
        AstTextSnoc(out, comment + st.items[k].val);
      }
      PassiveFrom(st, k + 1, comment2, out2, reg);
      PassiveRound(st, k, comment, out, reg);
      PassiveStep(st, k, comment, out, reg, ParseFrom(st, k + 1, comment2, out2, reg));
    }
  }

  /** One passive item more in front. */
  lemma PassiveStep(st: Stream, k: nat, comment: string, out: seq<NodeValue>, reg: Classes, r: Outcome<Parsed>)
    requires Passes(st) && k < |st.items| - 1 && AstText(out).Done?
    requires PrintsAs(st, k + 1, CarriedComment(st.items[k], comment), CarriedOut(st.items[k], comment, out), reg, r)
    ensures PrintsAs(st, k, comment, out, reg, r)
  {
    var n := |st.items| - 1;
    var t := st.items[k];
    var rest := Joined(st.items[k + 1..n]);
    JoinedFront(st.items[k..n]);
    assert st.items[k..n][1..] == st.items[k + 1..n];
    assert Joined(st.items[k..n]) == t.val + rest;
    CarriedText(t, comment, out, rest);
    var out2, comment2 := CarriedOut(t, comment, out), CarriedComment(t, comment);
    var s := AstText(out).value + comment + Joined(st.items[k..n]);
    assert AstText(out2).value + comment2 + rest == s;
    assert AstText(r.value.nodes) == Done(s);
  }

  /** What the carried comment and ast print, followed by `rest`. */
  lemma CarriedText(t: Token, comment: string, out: seq<NodeValue>, rest: string)
    requires AstText(out).Done?
    ensures AstText(CarriedOut(t, comment, out)).Done?
    ensures AstText(CarriedOut(t, comment, out)).value + CarriedComment(t, comment) + rest ==
      AstText(out).value + comment + (t.val + rest)
  {
    if t.kind == Text {
      AstTextSnoc(out, comment + t.val);
    }
    Regroup(AstText(out).value, comment, t.val, rest);
  }

  lemma Regroup(x: string, c: string, v: string, j: string)
    ensures x + (c + v) + "" + j == x + c + (v + j)
    ensures x + (c + v) + j == x + c + (v + j)
  {
  }

  /** A stream without classes prints back the text of its items. */
  lemma PassiveParse(st: Stream, reg: Classes)
    requires Passes(st)
    ensures var r := Parse(st, reg);
      r.Done? && r.value.classes == reg &&
      AstText(r.value.nodes) == Done(Joined(st.items[..|st.items| - 1]))
  {
    assert AstText([]) == Done("");
    PassiveFrom(st, 0, "", [], reg);
    var ts := st.items[..|st.items| - 1];
    assert st.items[0..|st.items| - 1] == ts;
    assert "" + "" + Joined(ts) == Joined(ts);
  }

  /** When the lexer hands over only passive items, ProcessString returns
      their text and leaves the registry alone. */
  lemma PassiveTranslation(input: string, reg: Classes)
    requires Passes(L.Lex(input))
    ensures var items := L.Lex(input).items;
      ProcessString(input, reg) == Done(Translation(Joined(items[..|items| - 1]), reg))
  {
    PassiveParse(L.Lex(input), reg);
  }

  // ---------------------------------------------------------------------
  // What the lexer makes of text and block comments

  /** None of the three words lexText looks for occurs in s. */
  predicate Plain(s: string) {
    !Contains(s, "class ") && !Contains(s, "/*") && !Contains(s, "package")
  }

  /** No line start in [p, m) holds one of the words lexText looks for. */
  predicate Quiet(input: string, p: nat, m: nat) {
    forall j :: p <= j < m ==> !L.TextTrigger(input, j)
  }

  /** A pattern one of whose characters is absent does not occur. */
  lemma Absent(s: string, p: string, i: nat)
    requires i < |p| && p[i] !in s
    ensures !Contains(s, p)
  {
    CharOfOccurrence(s, p, i);
  }

  /** Each character of a pattern that occurs is a character of the text. */
  lemma CharOfOccurrence(s: string, p: string, i: nat)
    requires i < |p|
    ensures Contains(s, p) ==> p[i] in s
  {
    if Contains(s, p) {
      var j := Index(s, p);
      assert s[j + i] == s[j..][..|p|][i];
    }
  }

  /** s never holds the characters x and y next to each other. */
  predicate NoPair(s: string, x: char, y: char) {
    forall k :: 0 <= k < |s| - 1 ==> !(s[k] == x && s[k + 1] == y)
  }

  /** A pattern two of whose adjacent characters never meet does not occur. */
  lemma AbsentPair(s: string, p: string, i: nat)
    requires i + 1 < |p| && NoPair(s, p[i], p[i + 1])
    ensures !Contains(s, p)
  {
  }

  /** Text that never holds the pairs "cl", slash-star and "pa" is plain. */
  lemma PlainByPairs(s: string)
    requires NoPair(s, 'c', 'l') && NoPair(s, '/', '*') && NoPair(s, 'p', 'a')
    ensures Plain(s)
  {
    AbsentPair(s, "class ", 0);
    AbsentPair(s, "/*", 0);
    AbsentPair(s, "package", 0);
  }

  /** The line loop of lexText runs through a quiet stretch that ends at a
      line boundary or at the end of input. */
  lemma {:induction false} TextStopSkips(input: string, p: nat, m: nat)
    requires p <= m <= |input| && Quiet(input, p, m)
    requires p == m || m == |input| || input[m - 1] == '\n'
    ensures L.TextStop(input, p) == L.TextStop(input, m)
    decreases m - p
  {
    if p < m {
      var q := L.SkipSpace(input, p);
      if q < m {
        assert !L.TextTrigger(input, q);
        var e := L.LineEnd(input, q);
        assert e <= m;
        if e < |input| {
          TextStopSkips(input, e, m);
        } else {
          assert e == m;
        }
      } else {
        assert q == m == |input|;
      }
    }
  }

  /** Text without the words is quiet up to its end, when a newline ends it
      (so no word runs on into what follows). */
  lemma PlainQuiet(a: string, rest: string)
    requires Plain(a) && (a == [] || a[|a| - 1] == '\n')
    ensures Quiet(a + rest, 0, |a|)
  {
    var input := a + rest;
    forall j | 0 <= j < |a|
      ensures !L.TextTrigger(input, j)
    {
      PlainAt(a, rest, j, "class ");
      PlainAt(a, rest, j, "/*");
      PlainAt(a, rest, j, "package");
    }
  }

  lemma PlainAt(a: string, rest: string, j: nat, w: string)
    requires j < |a| && a[|a| - 1] == '\n' && !Contains(a, w) && '\n' !in w
    ensures !L.At(a + rest, j, w)
  {
    AtInsideLine(a, rest, j, w);
  }

  /** A word without newline that starts before the last line end of `a`
      lies inside `a`. */
  lemma AtInsideLine(a: string, rest: string, j: nat, w: string)
    requires j < |a| && a[|a| - 1] == '\n'
    ensures L.At(a + rest, j, w) ==> Contains(a, w) || '\n' in w
  {
    var input := a + rest;
    if L.At(input, j, w) {
      if j + |w| <= |a| {
        assert a[j..][..|w|] == input[j..][..|w|];
        ContainsAt(a, w, j);
      } else {
        assert w[|a| - 1 - j] == input[j..][|a| - 1 - j];
      }
    }
  }

  /** Text after the last scan point that holds none of the words is quiet. */
  lemma PlainTail(a: string, b: string)
    requires Plain(b)
    ensures Quiet(a + b, |a|, |a + b|)
  {
    var input := a + b;
    forall j | |a| <= j < |input|
      ensures !L.TextTrigger(input, j)
    {
      assert input[j..] == b[j - |a|..];
      ContainsIf(b, "class ", j - |a|);
      ContainsIf(b, "/*", j - |a|);
      ContainsIf(b, "package", j - |a|);
    }
  }

  lemma ContainsIf(s: string, p: string, j: nat)
    requires j <= |s|
    ensures HasPrefix(s[j..], p) ==> Contains(s, p)
  {
    if HasPrefix(s[j..], p) {
      ContainsAt(s, p, j);
    }
  }

  /** The first "*\/" after the opener is the one that closes c. */
  lemma CloserAfter(c: string, b: string)
    requires !Contains(c, "*/")
    ensures Index(c + "*/" + b, "*/") == |c|
  {
    var s := c + "*/" + b;
    assert s[|c|..][..2] == "*/";
    forall k | 0 <= k < |c|
      ensures !HasPrefix(s[k..], "*/")
    {
      if k + 2 <= |c| {
        assert c[k..][..2] == s[k..][..2];
        assert !HasPrefix(c[k..], "*/");
      } else {
        assert s[k + 1] == '*';
      }
    }
    IndexIs(s, "*/", |c|);
  }

  /** lexText at the start of input that runs from text into a block
      comment: the text so far, then the comment. */
  lemma CommentFirst(a: string, c: string, rest: string)
    requires Plain(a) && (a == [] || a[|a| - 1] == '\n') && !Contains(c, "*/")
    ensures var m := "/*" + c + "*/";
      L.Step(a + m + rest, 0, L.LexText) ==
      L.StepResult(L.TextOf(a) + [Token(Comment, m)], |a| + |m|, L.Then(L.LexText))
  {
    var m := "/*" + c + "*/";
    var input := a + m + rest;
    assert a + (m + rest) == input;
    TextReachesOpener(a, m + rest);
    assert input[|a|..|a| + 4 + |c|] == m;
    CommentIn(input, |a|, c);
    assert input[0..|a|] == a;
    assert L.Flush(input, 0, |a|) == L.TextOf(a);
    TextMeetsComment(input, 0, |a|);
  }

  /** The line loop of lexText runs through plain text to an opener that
      starts a line. */
  lemma TextReachesOpener(a: string, s: string)
    requires Plain(a) && (a == [] || a[|a| - 1] == '\n') && L.At(s, 0, "/*")
    ensures L.TextStop(a + s, 0) == |a| && L.At(a + s, |a|, "/*") && !L.At(a + s, |a|, "class ")
  {
    var input := a + s;
    PlainQuiet(a, s);
    TextStopSkips(input, 0, |a|);
    assert input[|a|..] == s;
    assert input[|a|] == s[..2][0];
    NotAt(input, |a|, "class ");
  }

  /** A word does not start where its first character is missing. */
  lemma NotAt(input: string, i: nat, w: string)
    requires i < |input| && w != [] && input[i] != w[0]
    ensures !L.At(input, i, w)
  {
    if i + |w| <= |input| {
      assert input[i..][..|w|][0] == input[i];
    }
  }

  /** lexText when its line loop stops at a comment opener. */
  lemma TextMeetsComment(input: string, p: nat, q: nat)
    requires p <= |input| && L.TextStop(input, p) == q
    requires !L.At(input, q, "class ") && L.At(input, q, "/*")
    ensures var r := L.CommentStep(input, q, L.LexText);
      L.Step(input, p, L.LexText) == L.StepResult(L.Flush(input, p, q) + r.out, r.pos, r.next)
  {
  }

  /** A comment whose body c holds no closer: the opener is at q, the
      first closer after it follows c, and lexComment emits it whole. */
  lemma CommentIn(input: string, q: nat, c: string)
    requires q + 4 + |c| <= |input| && input[q..q + 4 + |c|] == "/*" + c + "*/" && !Contains(c, "*/")
    ensures L.At(input, q, "/*") && Index(input[q + 2..], "*/") == |c|
    ensures L.CommentStep(input, q, L.LexText) ==
      L.StepResult([Token(Comment, input[q..q + 4 + |c|])], q + 4 + |c|, L.Then(L.LexText))
  {
    var w := input[q..q + 4 + |c|];
    assert input[q..][..2] == w[..2];
    var rest := input[q + 4 + |c|..];
    assert input[q + 2..] == w[2..] + rest;
    assert w[2..] == c + "*/";
    CloserAfter(c, rest);
    CommentAt(input, q, |c|);
  }

  /** lexComment when the first closer after the opener is i characters on. */
  lemma CommentAt(input: string, q: nat, i: nat)
    requires L.At(input, q, "/*") && Index(input[q + 2..], "*/") == i
    ensures L.CommentStep(input, q, L.LexText) ==
      L.StepResult([Token(Comment, input[q..q + 4 + i])], q + 4 + i, L.Then(L.LexText))
  {
  }

  /** lexText on a tail without the words: the tail is one text item (none
      when it is empty), then EOF. */
  lemma TextLast(input: string, r: nat)
    requires r <= |input| && Plain(input[r..])
    ensures L.Step(input, r, L.LexText) == L.StepResult(L.TextOf(input[r..]) + [Token(EOF, [])], |input|, L.Stop)
  {
    PlainTail(input[..r], input[r..]);
    assert input[..r] + input[r..] == input;
    TextStopSkips(input, r, |input|);
    assert L.TextStop(input, r) == |input|;
    assert input[r..|input|] == input[r..];
  }

  /** Text, one block comment, text: the lexer hands over a text item for each
      non-empty stretch of text, the comment item in between, and EOF. */
  lemma CommentLexed(a: string, c: string, b: string)
    requires Plain(a) && (a == [] || a[|a| - 1] == '\n')
    requires !Contains(c, "*/") && Plain(b)
    ensures L.Lex(a + "/*" + c + "*/" + b) == CommentStream(a, "/*" + c + "*/", b)
  {
    var m := "/*" + c + "*/";
    var input := a + m + b;
    assert input == a + "/*" + c + "*/" + b;
    var r := |a| + |m|;
    CommentFirst(a, c, b);
    assert input[r..] == b;
    TextLast(input, r);
    var tail := L.TextOf(b) + [Token(EOF, [])];
    LexStops(input, r, L.LexText, tail);
    LexGoesOn(input, 0, L.LexText, L.TextOf(a) + [Token(Comment, m)], r, L.LexText);
  }

  /** A scan whose first state stops. */
  lemma LexStops(input: string, p: nat, fn: L.StateFn, out: seq<Token>)
    requires L.Entry(input, p, fn) && fn != L.LexMember
    requires L.Step(input, p, fn).out == out && L.Step(input, p, fn).next == L.Stop
    ensures L.LexFrom(input, p, fn) == Stream(out, Closed)
  {
    L.LexFromStep(input, p, fn);
  }

  /** A scan whose first state hands over to another. */
  lemma LexGoesOn(input: string, p: nat, fn: L.StateFn, out: seq<Token>, q: nat, fn2: L.StateFn)
    requires L.Entry(input, p, fn) && fn != L.LexMember
    requires L.Step(input, p, fn) == L.StepResult(out, q, L.Then(fn2))
    ensures L.LexFrom(input, p, fn) ==
      Stream(out + L.LexFrom(input, q, fn2).items, L.LexFrom(input, q, fn2).ending)
  {
    L.LexFromStep(input, p, fn);
  }

  /** The items of text, a comment, text, and EOF. */
  function CommentStream(a: string, m: string, b: string): Stream {
    Stream(L.TextOf(a) + [Token(Comment, m)] + (L.TextOf(b) + [Token(EOF, [])]), Closed)
  }

  /** Such a stream holds no class, and its items spell out the text. */
  lemma CommentStreamPasses(a: string, m: string, b: string)
    ensures Passes(CommentStream(a, m, b))
    ensures var items := CommentStream(a, m, b).items; Joined(items[..|items| - 1]) == a + m + b
  {
    var items := CommentStream(a, m, b).items;
    var front := L.TextOf(a) + [Token(Comment, m)] + L.TextOf(b);
    assert items == front + [Token(EOF, [])];
    assert items[..|items| - 1] == front;
    JoinedAppend(L.TextOf(a), [Token(Comment, m)]);
    JoinedAppend(L.TextOf(a) + [Token(Comment, m)], L.TextOf(b));
    TextOfJoined(a);
    TextOfJoined(b);
    assert [Token(Comment, m)][..0] == [];
  }

  /** Text, one block comment, text comes out of ProcessString unchanged, and
      the registry with it (TestText and TestText2 are of this form). */
  lemma CommentPassesThrough(a: string, c: string, b: string, reg: Classes)
    requires Plain(a) && (a == [] || a[|a| - 1] == '\n')
    requires !Contains(c, "*/") && Plain(b)
    ensures ProcessString(a + "/*" + c + "*/" + b, reg) == Done(Translation(a + "/*" + c + "*/" + b, reg))
  {
    var m := "/*" + c + "*/";
    var input := a + "/*" + c + "*/" + b;
    assert input == a + m + b;
    CommentLexed(a, c, b);
    CommentStreamPasses(a, m, b);
    PassiveTranslation(input, reg);
  }

  lemma TextOfJoined(s: string)
    ensures Joined(L.TextOf(s)) == s
  {
    if s != [] {
      assert L.TextOf(s)[..0] == [];
    }
  }

  /** Input holding none of the words comes out unchanged. */
  lemma TextPassesThrough(input: string, reg: Classes)
    requires Plain(input)
    ensures ProcessString(input, reg) == Done(Translation(input, reg))
  {
    L.PlainText(input);
    var items := L.TextOf(input) + [Token(EOF, [])];
    assert items[..|items| - 1] == L.TextOf(input);
    PassiveTranslation(input, reg);
    TextOfJoined(input);
  }

  /** The input of TestText (gopp/parser_test.go:7-18) passes through. */
  lemma TestTextPasses(reg: Classes)
    ensures ProcessString("\n/**\nTest comment\n */\n", reg) == Done(Translation("\n/**\nTest comment\n */\n", reg))
  {
    var a, c, b := "\n", "*\nTest comment\n ", "\n";
    Absent(a, "class ", 0);
    Absent(a, "/*", 0);
    Absent(a, "package", 0);
    Absent(c, "*/", 1);
    Absent(b, "class ", 0);
    Absent(b, "/*", 0);
    Absent(b, "package", 0);
    TestTextSplits();
    CommentPassesThrough(a, c, b, reg);
  }

  lemma TestTextSplits()
    ensures "\n" + "/*" + "*\nTest comment\n " + "*/" + "\n" == "\n/**\nTest comment\n */\n"
  {
  }

  /** The input of TestText2 (gopp/parser_test.go:20-35) passes through: a
      comment, then a Go struct declaration. */
  lemma TestText2Passes(reg: Classes)
    ensures var s := "\n" + "/**\nTest comment\n */" + "\n\n type test struct  {\n \tblah\n }\n";
      ProcessString(s, reg) == Done(Translation(s, reg))
  {
    var a, c, b := "\n", "*\nTest comment\n ", "\n\n type test struct  {\n \tblah\n }\n";
    TestText2Head();
    TestText2Tail();
    TestText2Splits();
    CommentPassesThrough(a, c, b, reg);
    Regroup5(a, "/*", c, "*/", b);
  }

  lemma TestText2Head()
    ensures Plain("\n") && !Contains("*\nTest comment\n ", "*/")
  {
    Absent("\n", "class ", 0);
    Absent("\n", "/*", 0);
    Absent("\n", "package", 0);
    Absent("*\nTest comment\n ", "*/", 1);
  }

  lemma TestText2Tail()
    ensures Plain("\n\n type test struct  {\n \tblah\n }\n")
  {
    PlainByPairs("\n\n type test struct  {\n \tblah\n }\n");
  }

  lemma Regroup5(a: string, x: string, y: string, z: string, b: string)
    ensures a + x + y + z + b == a + (x + y + z) + b
  {
  }

  lemma TestText2Splits()
    ensures "/**\nTest comment\n */" == "/*" + "*\nTest comment\n " + "*/"
  {
  }

  // ---------------------------------------------------------------------
  // A lexer crash after the last item

  /** The items of "class A xxxxxxx B ": the class name, the missing-extends
      error and the parent name.  No "{" follows, so lexLeftDelim then slices
      past the end of the input. */
  function UnopenedItems(): seq<Token> {
    [Token(Class, "A"), Token(Error, "Missing 'extends' keyword"), Token(Kind.Extends, "B")]
  }

  /** A class header with neither "extends" nor a body (lexer.go:257-262):
      the parser takes all three items and finishes, and the lexer, set free
      by the last hand-over, crashes in lexLeftDelim.  The crash is what the
      call comes to, with Go's message for a slice past the end. */
  lemma UnopenedClassCrashes(reg: Classes)
    ensures ProcessString("class A xxxxxxx B ", reg) ==
      Panicked("runtime error: slice bounds out of range [:19] with length 18")
  {
    UnopenedLexed();
    UnopenedParsed(reg);
    UnopenedMessage();
  }

  lemma UnopenedMessage()
    ensures L.SliceBeyond(19, 18) == "runtime error: slice bounds out of range [:19] with length 18"
  {
  }

  lemma UnopenedLexed()
    ensures L.Lex("class A xxxxxxx B ") == Stream(UnopenedItems(), Crashed(L.SliceBeyond(19, 18)))
  {
    var s := "class A xxxxxxx B ";
    UnopenedTextStep();
    UnopenedClassStep();
    UnopenedTail();
    L.LexFromStep(s, 0, L.LexClass);
    L.LexFromStep(s, 0, L.LexText);
  }

  /** The scan from the missing keyword on. */
  lemma UnopenedTail()
    ensures L.LexFrom("class A xxxxxxx B ", 7, L.LexExtends) ==
      Stream(UnopenedItems()[1..], Crashed(L.SliceBeyond(19, 18)))
  {
    var s := "class A xxxxxxx B ";
    UnopenedExtendsStep();
    UnopenedParentStep();
    UnopenedBodyStep();
    L.LexFromStep(s, 17, L.LexBodyOpen);
    L.LexFromStep(s, 15, L.LexExtendsClassName);
    L.LexFromStep(s, 7, L.LexExtends);
  }

  lemma UnopenedTextStep()
    ensures L.Step("class A xxxxxxx B ", 0, L.LexText) == L.StepResult([], 0, L.Then(L.LexClass))
  {
    var s := "class A xxxxxxx B ";
    assert L.At(s, 0, "class ") by { assert s[0..][..6] == "class "; }
    assert L.TextStop(s, 0) == 0;
  }

  lemma UnopenedClassStep()
    ensures L.Step("class A xxxxxxx B ", 0, L.LexClass) ==
      L.StepResult([Token(Class, "A")], 7, L.Then(L.LexExtends))
  {
    var s := "class A xxxxxxx B ";
    assert L.At(s, 0, "class ") by { assert s[0..][..6] == "class "; }
    assert L.SkipSpace(s, 6) == 6;
    assert L.IdEnd(s, 6) == 7;
    assert s[6..7] == "A";
  }

  lemma UnopenedExtendsStep()
    ensures L.Step("class A xxxxxxx B ", 7, L.LexExtends) ==
      L.StepResult([Token(Error, "Missing 'extends' keyword")], 15, L.Then(L.LexExtendsClassName))
  {
    var s := "class A xxxxxxx B ";
    assert L.SkipSpace(s, 7) == 8;
    assert !L.At(s, 8, "extends") by { assert s[8..][..7][0] == 'x'; }
  }

  lemma UnopenedParentStep()
    ensures L.Step("class A xxxxxxx B ", 15, L.LexExtendsClassName) ==
      L.StepResult([Token(Kind.Extends, "B")], 17, L.Then(L.LexBodyOpen))
  {
    var s := "class A xxxxxxx B ";
    assert L.SkipSpace(s, 15) == 16;
    assert L.IdEnd(s, 16) == 17;
    assert s[16..17] == "B";
  }

  lemma UnopenedBodyStep()
    ensures L.Step("class A xxxxxxx B ", 17, L.LexBodyOpen) ==
      L.StepResult([], 18, L.Crashes(L.SliceBeyond(19, 18)))
  {
    var s := "class A xxxxxxx B ";
    assert L.SkipSpace(s, 17) == 18;
  }

  /** parse reports the missing keyword, then the stray parent name, and
      stops having read every item. */
  lemma UnopenedParsed(reg: Classes)
    ensures var p := Parse(Stream(UnopenedItems(), Crashed(L.SliceBeyond(19, 18))), reg);
      p.Done? && p.value.next == 3
  {
    var st := Stream(UnopenedItems(), Crashed(L.SliceBeyond(19, 18)));
    var r0 := ParseRound(st, 0, "", [], reg);
    assert r0.Next? && r0.next == 2;
    var r1 := ParseRound(st, 2, r0.comment, r0.out, r0.reg);
    assert r1.Stop? && r1.r.Done? && r1.r.value.next == 3;
  }
}
