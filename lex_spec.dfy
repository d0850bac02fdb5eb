/**
  What the lexer of lexer.go produces, stated as functions of the input.

  Each state function of the lexer is described by a step function: from the
  position where the state starts it gives the items the state emits, the
  position where the next state starts and that next state (or the end of the
  scan).  `Lex` chains the steps from the start of the input.  The class
  `Lexer.Lexer` runs the same states imperatively and is proved to produce
  exactly `Lex(input)`.

  One char stands for one rune of width 1.
 */
module LexSpec {
  import opened GoStrings
  import opened Items

  /** The result of lexer.next(): a character, or eof. */
  datatype Rune = Eof | Ch(c: char)

  function RuneAt(input: string, i: nat): Rune {
    if i < |input| then Ch(input[i]) else Eof
  }

  /** isSpace: only blank and tab. */
  predicate IsSpace(c: char) {
    c == ' ' || c == '\t'
  }

  /** isIdChar: '.', '_', letters and digits (ASCII letters and digits here). */
  predicate IsIdChar(c: char) {
    c == '.' || c == '_' || 'a' <= c <= 'z' || 'A' <= c <= 'Z' || '0' <= c <= '9'
  }

  /** strings.HasPrefix(l.input[i:], p) */
  predicate At(input: string, i: nat, p: string) {
    i <= |input| && HasPrefix(input[i..], p)
  }

  /** Where a run of blanks and tabs starting at i ends (ignoreSpace, acceptSpace). */
  function SkipSpace(input: string, i: nat): (j: nat)
    ensures i <= j
    ensures i >= |input| ==> j == i
    ensures i < |input| ==> j <= |input| && (j == |input| || !IsSpace(input[j]))
    ensures forall k :: i <= k < j ==> k < |input| && IsSpace(input[k])
    decreases |input| - i
  {
    if i < |input| && IsSpace(input[i]) then SkipSpace(input, i + 1) else i
  }

  /** Where nextLine stops: just after the next newline, or at the end. */
  function LineEnd(input: string, i: nat): (j: nat)
    ensures i >= |input| ==> j == i
    ensures i < |input| ==> i < j <= |input| && (j == |input| || input[j - 1] == '\n')
    ensures forall k :: i <= k < j - 1 ==> k < |input| && input[k] != '\n'
    decreases |input| - i
  {
    if i >= |input| then i
    else if input[i] == '\n' then i + 1
    else LineEnd(input, i + 1)
  }

  /** The end of the run of identifier characters starting at i. */
  function IdEnd(input: string, i: nat): (j: nat)
    ensures i <= j
    ensures i >= |input| ==> j == i
    ensures i < |input| ==> j <= |input| && (j == |input| || !IsIdChar(input[j]))
    ensures forall k :: i <= k < j ==> k < |input| && IsIdChar(input[k])
    decreases |input| - i
  {
    if i < |input| && IsIdChar(input[i]) then IdEnd(input, i + 1) else i
  }

  /** The first position at or after i holding one of `stops`, or the end. */
  function UntilEnd(input: string, i: nat, stops: set<char>): (j: nat)
    ensures i <= j
    ensures i >= |input| ==> j == i
    ensures i < |input| ==> j <= |input| && (j == |input| || input[j] in stops)
    ensures forall k :: i <= k < j ==> k < |input| && input[k] !in stops
    decreases |input| - i
  {
    if i < |input| && input[i] !in stops then UntilEnd(input, i + 1, stops) else i
  }

  /** The brace-depth counter of lexFuncBody, started at position i with
      `depth` braces open: the position just after the brace that closes the
      last of them, or None when the input ends first. */
  function BodyEnd(input: string, i: nat, depth: nat): (r: Option<nat>)
    requires depth >= 1
    ensures r.Some? ==> i < r.value <= |input| && input[r.value - 1] == '}'
    decreases |input| - i
  {
    if i >= |input| then None
    else if input[i] == '{' then BodyEnd(input, i + 1, depth + 1)
    else if input[i] == '}' then (if depth == 1 then Some(i + 1) else BodyEnd(input, i + 1, depth - 1))
    else BodyEnd(input, i + 1, depth)
  }

  /** Open braces minus close braces. */
  function Depth(s: string): int
    decreases |s|
  {
    if s == [] then 0
    else Depth(s[..|s| - 1]) + (if s[|s| - 1] == '{' then 1 else if s[|s| - 1] == '}' then -1 else 0)
  }

  /** BodyEnd stops at the first point where the braces read since i close
      the `depth` open ones, and fails exactly when there is no such point. */
  lemma {:induction false} BodyEndBalance(input: string, i: nat, depth: nat)
    requires depth >= 1 && i <= |input|
    ensures BodyEnd(input, i, depth).Some? ==>
      var e := BodyEnd(input, i, depth).value;
      depth + Depth(input[i..e]) == 0 &&
      forall k :: i <= k < e ==> depth + Depth(input[i..k]) > 0
    ensures BodyEnd(input, i, depth).None? ==>
      forall k :: i <= k <= |input| ==> depth + Depth(input[i..k]) > 0
    decreases |input| - i
  {
    assert input[i..i] == [];
    if i < |input| {
      var d := if input[i] == '{' then depth + 1 else if input[i] == '}' then depth - 1 else depth;
      forall k | i + 1 <= k <= |input|
        ensures Depth(input[i..k]) == (d - depth) + Depth(input[i + 1..k])
      {
        DepthFront(input[i..k]);
        assert input[i..k][1..] == input[i + 1..k];
      }
      if d >= 1 {
        BodyEndBalance(input, i + 1, d);
      }
    }
  }

  /** Depth can also be counted from the front. */
  lemma {:induction false} DepthFront(s: string)
    requires s != []
    ensures Depth(s) == (if s[0] == '{' then 1 else if s[0] == '}' then -1 else 0) + Depth(s[1..])
    decreases |s|
  {
    if |s| > 1 {
      DepthFront(s[..|s| - 1]);
      assert s[..|s| - 1][1..] == s[1..][..|s[1..]| - 1];
      assert s[..|s| - 1][0] == s[0];
    } else {
      assert s[..|s| - 1] == [];
    }
  }

  /** The states of the lexer, named after their state functions. */
  datatype StateFn =
    | LexText | LexClass | LexExtends | LexExtendsClassName | LexBodyOpen
    | LexClassBody | LexClassClose | LexFunc | LexFuncParams | LexFuncBody | LexMember

  /** What a state function hands back: the next state, nil (the scan is
      over), a loop that never returns, or a run-time panic. */
  datatype Transition = Then(fn: StateFn) | Stop | Spins | Crashes(msg: string)

  /** The items a state emits, where the next state starts (meaningful when
      `next` is Then) and the transition. */
  datatype StepResult = StepResult(out: seq<Token>, pos: nat, next: Transition)

  /** The run-time error of slicing a string of length `len` up to `hi`,
      past its end. */
  function SliceBeyond(hi: nat, len: nat): string {
    "runtime error: slice bounds out of range [:" + Decimal(hi) + "] with length " + Decimal(len)
  }

  /** The text read since `start`, when there is any (the `if l.pos > l.start
      { l.emit(itemText) }` flushes of lexText). */
  function Flush(input: string, start: nat, p: nat): (r: seq<Token>)
    requires start <= p <= |input|
    ensures r == [] <==> start == p
    ensures r != [] ==> r == [Token(Text, input[start..p])]
  {
    if p > start then [Token(Text, input[start..p])] else []
  }

  // lexComment: the comment runs from the "/*" at q through the first "*/"
  // after it; without one the scan ends with the error "unclosed comment".
  function CommentStep(input: string, q: nat, nextState: StateFn): (r: StepResult)
    requires At(input, q, "/*")
    ensures r.next == Stop <==> !Contains(input[q + 2..], "*/")
    ensures r.next == Stop ==> r.out == [Token(Error, "unclosed comment")]
    ensures r.next != Stop ==>
      r.next == Then(nextState) && q + 4 <= r.pos <= |input| &&
      r.out == [Token(Comment, input[q..r.pos])] &&
      At(input, q, "/*") && At(input, r.pos - 2, "*/")
    ensures r.next != Stop ==> forall j :: q + 2 <= j < r.pos - 2 ==> !At(input, j, "*/")
  {
    var i := Index(input[q + 2..], "*/");
    if i < 0 then StepResult([Token(Error, "unclosed comment")], q + 2, Stop)
    else
      CommentEnd(input, q, i);
      StepResult([Token(Comment, input[q..q + 4 + i])], q + 4 + i, Then(nextState))
  }

  // The first closer after the opener at q starts i characters past it.
  lemma CommentEnd(input: string, q: nat, i: int)
    requires q + 2 <= |input| && i == Index(input[q + 2..], "*/") && i >= 0
    ensures q + 4 + i <= |input| && At(input, q + 2 + i, "*/")
    ensures forall j :: q + 2 <= j < q + 2 + i ==> !At(input, j, "*/")
  {
    var s := input[q + 2..];
    assert s[i..] == input[q + 2 + i..];
    forall j | q + 2 <= j < q + 2 + i
      ensures !At(input, j, "*/")
    {
      assert s[j - q - 2..] == input[j..];
    }
  }

  /** lexIdentifier: blanks and tabs are skipped, then identifier characters
      are read.  A newline or the end of input before the first other character
      is the error "Missing identifier"; otherwise the characters read (possibly
      none) are emitted and the scan resumes at the character that ended them. */
  function IdentifierStep(input: string, p: nat, typ: Kind, nextState: StateFn): (r: StepResult)
    ensures r.next == Then(nextState) || r.next == Stop
    ensures r.next == Stop ==> r.out == [Token(Error, "Missing identifier")]
    ensures r.next == Stop <==>
      (IdEnd(input, SkipSpace(input, p)) >= |input| || input[IdEnd(input, SkipSpace(input, p))] == '\n')
    ensures r.next != Stop ==>
      p <= r.pos < |input| && !IsIdChar(input[r.pos]) && input[r.pos] != '\n' &&
      |r.out| == 1 && r.out[0].kind == typ && |r.out[0].val| <= r.pos - p &&
      InfixAt(r.out[0].val, input, r.pos - |r.out[0].val|) &&
      (forall k :: 0 <= k < |r.out[0].val| ==> IsIdChar(r.out[0].val[k])) &&
      (forall k :: p <= k < r.pos - |r.out[0].val| ==> IsSpace(input[k]))
  {
    var q := SkipSpace(input, p);
    var e := IdEnd(input, q);
    if e >= |input| || input[e] == '\n' then StepResult([Token(Error, "Missing identifier")], e, Stop)
    else
      assert InfixAt(input[q..e], input, e - |input[q..e]|);
      StepResult([Token(typ, input[q..e])], e, Then(nextState))
  }

  /** A non-identifier character where an identifier should start gives an
      empty identifier: the "Invalid identifier" error of lexIdentifier is
      never reached. */
  lemma EmptyIdentifier(input: string, p: nat, typ: Kind, nextState: StateFn)
    requires SkipSpace(input, p) < |input|
    requires !IsIdChar(input[SkipSpace(input, p)]) && input[SkipSpace(input, p)] != '\n'
    ensures IdentifierStep(input, p, typ, nextState).out == [Token(typ, [])]
    ensures IdentifierStep(input, p, typ, nextState).next == Then(nextState)
  {
  }

  /** "package" is seven identifier characters. */
  lemma PackageIsIdentifier(input: string, q: nat)
    requires At(input, q, "package")
    ensures IdEnd(input, q) >= q + 7
  {
  }

  /** A line start (after blanks and tabs) where lexText acts. */
  predicate TextTrigger(input: string, q: nat) {
    At(input, q, "class ") || At(input, q, "/*") || At(input, q, "package")
  }

  // Where the line loop of lexText stops: the first line start, after
  // blanks and tabs, holding "class ", "/*" or "package", or the end.
  function TextStop(input: string, p: nat): (r: nat)
    requires p <= |input|
    ensures p <= r <= |input|
    ensures TextTrigger(input, r) || r == |input|
    decreases |input| - p
  {
    var q := SkipSpace(input, p);
    if TextTrigger(input, q) then q
    else
      var e := LineEnd(input, q);
      if e >= |input| then e else TextStop(input, e)
  }

  // lexText: at the start of each line, after blanks and tabs, "class "
  // and "/*" flush the pending text first; "package" becomes an identifier
  // token and the pending text is dropped; at the end of input the pending
  // text and an EOF item are emitted.
  function TextStep(input: string, start: nat, p: nat): (r: StepResult)
    requires start <= p <= |input|
    ensures r.next.Then? ==> p <= r.pos <= |input|
    ensures r.next.Then? && r.next.fn == LexClass ==> At(input, r.pos, "class ")
    ensures r.next.Then? && r.next.fn != LexClass ==> r.next.fn == LexText && p < r.pos
    ensures r.next.Spins? || r.next.Crashes? ==> false
  {
    var q := TextStop(input, p);
    if At(input, q, "class ") then
      StepResult(Flush(input, start, q), q, Then(LexClass))
    else if At(input, q, "/*") then
      var c := CommentStep(input, q, LexText);
      StepResult(Flush(input, start, q) + c.out, c.pos, c.next)
    else if At(input, q, "package") then
      PackageIsIdentifier(input, q);
      IdentifierStep(input, q, Package, LexText)
    else
      StepResult(Flush(input, start, q) + [Token(EOF, [])], q, Stop)
  }

  /** lexClass: the keyword and its space are skipped and the class name read. */
  function ClassStep(input: string, p: nat): (r: StepResult)
    requires At(input, p, "class ")
    ensures r.next.Then? ==> r.next.fn == LexExtends && p + 6 <= r.pos < |input|
  {
    IdentifierStep(input, p + 6, Kind.Class, LexExtends)
  }

  /** lexExtends: after blanks and tabs the keyword "extends" is expected; its
      absence emits an error item but the scan goes on seven characters later
      all the same. */
  function ExtendsStep(input: string, p: nat): (r: StepResult)
    requires p <= |input|
    ensures r.next == Then(LexExtendsClassName)
    ensures r.out == [] <==> At(input, SkipSpace(input, p), "extends")
    ensures r.out != [] ==> r.out == [Token(Error, "Missing 'extends' keyword")]
    ensures r.pos == SkipSpace(input, p) + 7
  {
    var q := SkipSpace(input, p);
    var out := if At(input, q, "extends") then [] else [Token(Error, "Missing 'extends' keyword")];
    StepResult(out, q + 7, Then(LexExtendsClassName))
  }

  function ExtendsClassNameStep(input: string, p: nat): (r: StepResult)
    ensures r.next.Then? ==> r.next.fn == LexBodyOpen && p <= r.pos < |input|
  {
    IdentifierStep(input, p, Kind.Extends, LexBodyOpen)
  }

  /** lexBodyOpen and lexLeftDelim: after blanks and tabs one character is
      taken as the left delimiter, whatever it is; at the end of input the
      slice in emit panics. */
  function BodyOpenStep(input: string, p: nat): (r: StepResult)
    requires p <= |input|
    ensures r.next.Crashes? <==> SkipSpace(input, p) >= |input|
    ensures r.next.Crashes? ==> r.next.msg == SliceBeyond(|input| + 1, |input|) && r.out == []
    ensures !r.next.Crashes? ==>
      r.next == Then(LexClassBody) && p < r.pos <= |input| &&
      r.out == [Token(LeftDelim, [input[r.pos - 1]])] &&
      forall k :: p <= k < r.pos - 1 ==> IsSpace(input[k])
  {
    var q := SkipSpace(input, p);
    if q >= |input| then StepResult([], q, Crashes(SliceBeyond(q + 1, |input|)))
    else
      assert input[q..q + 1] == [input[q]];
      StepResult([Token(LeftDelim, input[q..q + 1])], q + 1, Then(LexClassBody))
  }

  // lexClassBody: after blanks and tabs, "}" closes the class, "func "
  // starts a method, "/*" a comment, a "//" line is emitted whole (newline
  // included) as a line comment, and anything else is a member line.
  function ClassBodyStep(input: string, p: nat): (r: StepResult)
    requires p <= |input|
    ensures r.next.Then? ==> p <= r.pos <= |input|
    ensures r.next.Then? && r.next.fn == LexClassClose ==> At(input, r.pos, "}") && r.out == []
    ensures r.next.Then? && r.next.fn == LexFunc ==> At(input, r.pos, "func ") && r.out == []
    ensures r.next.Then? && r.next.fn == LexMember ==> r.out == []
    ensures r.next.Then? ==> r.next.fn in {LexClassClose, LexFunc, LexMember} || (r.next.fn == LexClassBody && p < r.pos)
    ensures r.next.Spins? || r.next.Crashes? ==> false
    ensures At(input, SkipSpace(input, p), "//") && !At(input, SkipSpace(input, p), "}") && !At(input, SkipSpace(input, p), "func ") && !At(input, SkipSpace(input, p), "/*") ==>
      SkipSpace(input, p) < r.pos <= |input| &&
      r.out == [Token(LineComment, input[SkipSpace(input, p)..r.pos])] &&
      (r.pos == |input| || input[r.pos - 1] == '\n') &&
      forall k :: SkipSpace(input, p) <= k < r.pos - 1 ==> input[k] != '\n'
  {
    var q := SkipSpace(input, p);
    if At(input, q, "}") then StepResult([], q, Then(LexClassClose))
    else if At(input, q, "func ") then StepResult([], q, Then(LexFunc))
    else if At(input, q, "/*") then CommentStep(input, q, LexClassBody)
    else if At(input, q, "//") then
      var e := LineEnd(input, q);
      StepResult([Token(LineComment, input[q..e])], e, Then(LexClassBody))
    else StepResult([], q, Then(LexMember))
  }

  /** lexClassClose and lexRightDelim: the "}" is emitted and plain text follows. */
  function ClassCloseStep(input: string, p: nat): (r: StepResult)
    requires At(input, p, "}")
    ensures r.out == [Token(RightDelim, "}")] && r.next == Then(LexText) && r.pos == p + 1
  {
    assert input[p..p + 1] == input[p..][..1];
    StepResult([Token(RightDelim, input[p..p + 1])], p + 1, Then(LexText))
  }

  /** lexFunc: the keyword is skipped and the method name read. */
  function FuncStep(input: string, p: nat): (r: StepResult)
    requires At(input, p, "func ")
    ensures r.next.Then? ==> r.next.fn == LexFuncParams && p + 4 <= r.pos < |input|
  {
    IdentifierStep(input, p + 4, Func, LexFuncParams)
  }

  /** lexFuncParams: the parameters are the text up to the first "{" or
      newline.  A newline first is the error "Missing opening bracket for
      function."; the end of input first makes acceptUntil loop forever. */
  function FuncParamsStep(input: string, p: nat): (r: StepResult)
    requires p <= |input|
    ensures r.next.Spins? <==> forall k :: p <= k < |input| ==> input[k] != '{' && input[k] != '\n'
    ensures r.next == Stop ==> r.out == [Token(Error, "Missing opening bracket for function.")]
    ensures r.next.Then? ==>
      r.next.fn == LexFuncBody && p <= r.pos && At(input, r.pos, "{") &&
      r.out == [Token(FuncParams, input[p..r.pos])] &&
      '{' !in r.out[0].val && '\n' !in r.out[0].val
    ensures r.next.Crashes? ==> false
  {
    var u := UntilEnd(input, p, {'{', '\n'});
    if u >= |input| then StepResult([], u, Spins)
    else if input[u] != '{' then StepResult([Token(Error, "Missing opening bracket for function.")], u, Stop)
    else
      assert input[u..][..1] == [input[u]];
      StepResult([Token(FuncParams, input[p..u])], u, Then(LexFuncBody))
  }

  /** lexFuncBody: the body runs from the first "{" to the brace that brings
      the depth back to zero, counting every brace, inside literals and
      comments too; the end of input first is the error "Unexpected EOF.
      Function body is still open.". */
  function FuncBodyStep(input: string, p: nat): (r: StepResult)
    requires p <= |input|
    ensures r.next == Then(LexClassBody) || r.next == Stop
    ensures r.next == Stop ==> r.out == [Token(Error, "Unexpected EOF. Function body is still open.")]
    ensures r.next.Then? ==> p < r.pos <= |input| && r.out == [Token(FuncBody, input[p..r.pos])]
  {
    var o := UntilEnd(input, p, {'{'});
    match BodyEnd(input, o + 1, 1)
    case None => StepResult([Token(Error, "Unexpected EOF. Function body is still open.")], o, Stop)
    case Some(e) => StepResult([Token(FuncBody, input[p..e])], e, Then(LexClassBody))
  }

  /** A function body that starts at its "{" is balanced: its braces cancel
      out, and every non-empty proper prefix has more "{" than "}". */
  lemma FuncBodyBalanced(input: string, p: nat)
    requires At(input, p, "{")
    requires FuncBodyStep(input, p).next.Then?
    ensures var body := FuncBodyStep(input, p).out[0].val;
      |body| >= 2 && body[0] == '{' && body[|body| - 1] == '}' &&
      Depth(body) == 0 &&
      forall k :: 0 < k < |body| ==> Depth(body[..k]) > 0
  {
    assert input[p] == '{' by { assert input[p..][..1] == "{"; }
    assert UntilEnd(input, p, {'{'}) == p;
    var e := BodyEnd(input, p + 1, 1).value;
    assert FuncBodyStep(input, p).out[0].val == input[p..e];
    BodyEndBalance(input, p + 1, 1);
    OpenPrefixes(input, p, p + 1, e);
  }

  lemma OpenPrefixes(input: string, p: nat, i: nat, e: nat)
    requires i == p + 1 && i <= e <= |input| && input[p] == '{'
    requires 1 + Depth(input[i..e]) == 0
    requires forall k :: i <= k < e ==> 1 + Depth(input[i..k]) > 0
    ensures Depth(input[p..e]) == 0
    ensures forall k :: 0 < k < e - p ==> Depth(input[p..e][..k]) > 0
  {
    OpenDepth(input, p, e - p);
    forall k | 0 < k < e - p
      ensures Depth(input[p..e][..k]) > 0
    {
      assert input[p..e][..k] == input[p..p + k];
      OpenDepth(input, p, k);
    }
  }

  lemma OpenDepth(input: string, p: nat, k: nat)
    requires 0 < k && p + k <= |input| && input[p] == '{'
    ensures Depth(input[p..p + k]) == 1 + Depth(input[p + 1..p + k])
  {
    DepthFront(input[p..p + k]);
    assert input[p..p + k][1..] == input[p + 1..p + k];
  }

  /** lexMember: the rest of the line, newline included, is a member when it
      is longer than one character; a bare newline is skipped. */
  function MemberStep(input: string, p: nat): (r: StepResult)
    requires p <= |input|
    ensures r.next == Then(LexClassBody)
    ensures p < |input| ==> p < r.pos
    ensures p >= |input| ==> r.pos == p && r.out == []
    ensures r.out != [] <==> r.pos > p + 1
    ensures r.out != [] ==>
      r.pos <= |input| && r.out == [Token(Member, input[p..r.pos])] &&
      (r.pos == |input| || input[r.pos - 1] == '\n') &&
      forall k :: p <= k < r.pos - 1 ==> input[k] != '\n'
  {
    var e := LineEnd(input, p);
    if p + 1 < e then StepResult([Token(Member, input[p..e])], e, Then(LexClassBody))
    else StepResult([], e, Then(LexClassBody))
  }

  /** What holds where each state starts: the state functions that follow a
      keyword test know the keyword is there. */
  predicate Entry(input: string, p: nat, fn: StateFn) {
    (fn != LexExtendsClassName ==> p <= |input|) &&
    (fn == LexClass ==> At(input, p, "class ")) &&
    (fn == LexClassClose ==> At(input, p, "}")) &&
    (fn == LexFunc ==> At(input, p, "func ")) &&
    (fn == LexFuncBody ==> At(input, p, "{"))
  }

  function Remaining(input: string, p: nat): nat {
    if p >= |input| then 0 else |input| - p
  }

  /** Orders the states that may start where the previous one started. */
  function Rank(fn: StateFn): nat {
    match fn
    case LexExtends | LexClassBody => 2
    case LexText | LexExtendsClassName | LexClassClose | LexFunc | LexMember | LexFuncParams => 1
    case LexClass | LexBodyOpen | LexFuncBody => 0
  }

  /** One state function run from position p (where the previous item ended). */
  function Step(input: string, p: nat, fn: StateFn): (r: StepResult)
    requires Entry(input, p, fn)
    ensures r.next.Then? ==> Entry(input, r.pos, r.next.fn)
    ensures r.next.Then? && !(fn == LexMember && p >= |input|) ==>
      Remaining(input, r.pos) < Remaining(input, p) ||
      (Remaining(input, r.pos) == Remaining(input, p) && Rank(r.next.fn) < Rank(fn))
  {
    match fn
    case LexText => TextStep(input, p, p)
    case LexClass => ClassStep(input, p)
    case LexExtends => ExtendsStep(input, p)
    case LexExtendsClassName => ExtendsClassNameStep(input, p)
    case LexBodyOpen => BodyOpenStep(input, p)
    case LexClassBody => ClassBodyStep(input, p)
    case LexClassClose => ClassCloseStep(input, p)
    case LexFunc => FuncStep(input, p)
    case LexFuncParams => FuncParamsStep(input, p)
    case LexFuncBody => FuncBodyStep(input, p)
    case LexMember => MemberStep(input, p)
  }

  /** At the end of input lexClassBody hands over to lexMember and lexMember
      back to lexClassBody, neither emitting nor moving. */
  lemma ClassBodyCycle(input: string, p: nat)
    requires p == |input|
    ensures Step(input, p, LexClassBody) == StepResult([], p, Then(LexMember))
    ensures Step(input, p, LexMember) == StepResult([], p, Then(LexClassBody))
  {
  }

  /** How the item stream ends when a state function does not hand over to
      another state. */
  function EndingOf(t: Transition): Ending
    requires !t.Then?
  {
    match t
    case Stop => Closed
    case Spins => Stalled
    case Crashes(m) => Crashed(m)
  }

  /** The items and ending of the scan from state fn at position p. */
  function LexFrom(input: string, p: nat, fn: StateFn): Stream
    requires Entry(input, p, fn)
    decreases Remaining(input, p), Rank(fn)
  {
    if fn == LexMember && p >= |input| then Stream([], Stalled)
    else
      var r := Step(input, p, fn);
      if r.next.Then? then
        var rest := LexFrom(input, r.pos, r.next.fn);
        Stream(r.out + rest.items, rest.ending)
      else Stream(r.out, EndingOf(r.next))
  }

  /** LexFrom takes one step unless lexMember is about to spin. */
  lemma LexFromStep(input: string, p: nat, fn: StateFn)
    requires Entry(input, p, fn) && !(fn == LexMember && p >= |input|)
    ensures var r := Step(input, p, fn);
      if r.next.Then? then
        LexFrom(input, p, fn) == Stream(r.out + LexFrom(input, r.pos, r.next.fn).items, LexFrom(input, r.pos, r.next.fn).ending)
      else LexFrom(input, p, fn) == Stream(r.out, EndingOf(r.next))
  {
  }

  /** lex(input) followed by every nextItem the lexer answers. */
  function Lex(input: string): Stream {
    LexFrom(input, 0, LexText)
  }

  /** A text token for the whole input, unless it is empty. */
  function TextOf(input: string): seq<Token> {
    if input == [] then [] else [Token(Text, input)]
  }

  // Input in which none of "class ", "/*" and "package" occurs is one text
  // item followed by EOF.
  lemma PlainText(input: string)
    requires !Contains(input, "class ") && !Contains(input, "/*") && !Contains(input, "package")
    ensures Lex(input) == Stream(TextOf(input) + [Token(EOF, [])], Closed)
  {
    PlainTextFrom(input, 0);
    assert input[0..|input|] == input;
  }

  lemma {:induction false} PlainTextFrom(input: string, p: nat)
    requires p <= |input|
    requires !Contains(input, "class ") && !Contains(input, "/*") && !Contains(input, "package")
    ensures TextStop(input, p) == |input|
    decreases |input| - p
  {
    var q := SkipSpace(input, p);
    assert !At(input, q, "class ") by { if At(input, q, "class ") { ContainsAt(input, "class ", q); } }
    assert !At(input, q, "/*") by { if At(input, q, "/*") { ContainsAt(input, "/*", q); } }
    assert !At(input, q, "package") by { if At(input, q, "package") { ContainsAt(input, "package", q); } }
    var e := LineEnd(input, q);
    if e < |input| {
      PlainTextFrom(input, e);
    }
  }
}
