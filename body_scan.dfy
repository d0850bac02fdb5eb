// processFuncBody, the scan both generators run over a method body
// (parser.go:291-343, gopp/parser.go:359-414).  The scan cuts the body into
// chunks: a quoted literal ends the chunk it sits in (the literal stays inside
// that chunk), and a "//" or "/*" comment ends the chunk before it and is
// skipped.  Each chunk is handed to the generator's convertBody and the
// results are concatenated.
//
// The scan is stated by `ScanFrom` over the loop's own variables: the chunk
// being collected starts at `start` and the scan is at `pos`.
module BodyScan {
  import opened GoStrings
  import opened Items

  const OpenQuote := "String has open quote, but not close quote."

  /** Prepends a chunk to the chunks of the rest, when the rest does not panic. */
  function Cons(c: string, rest: Option<seq<string>>): (r: Option<seq<string>>)
    ensures r.Some? <==> rest.Some?
    ensures r.Some? ==> r.value == [c] + rest.value
  {
    match rest
    case None => None
    case Some(cs) => Some([c] + cs)
  }

  /** What one pass of the loop does: the character read was the last one
      (the rest of the body is the last chunk); a quote is never closed; the
      chunk ends at `end` and the scan resumes with a new chunk at `next`; or
      the scan moves on to `next` within the same chunk. */
  datatype Move = Last | Unclosed | Cut(end: nat, next: nat) | Skip(next: nat)

  /** strings.Index(b[p:], pat), searched in place: the distance from `p` to
      the first occurrence of `pat`, or -1. */
  function Find(b: string, p: nat, pat: string): (r: int)
    requires p <= |b|
    ensures -1 <= r <= |b| - p
    ensures r >= 0 ==> p + r + |pat| <= |b|
    decreases |b| - p
  {
    if HasPrefix(b[p..], pat) then 0
    else if p == |b| then -1
    else
      var k := Find(b, p + 1, pat);
      if k < 0 then -1 else k + 1
  }

  lemma {:induction false} FindIsIndex(b: string, p: nat, pat: string)
    requires p <= |b|
    ensures Find(b, p, pat) == Index(b[p..], pat)
    decreases |b| - p
  {
    if !HasPrefix(b[p..], pat) && p < |b| {
      FindIsIndex(b, p + 1, pat);
      assert b[p..][1..] == b[p + 1..];
    }
  }

  /** Find when the first occurrence is known. */
  lemma {:induction false} FindAt(b: string, p: nat, pat: string, k: nat)
    requires p + k <= |b| && HasPrefix(b[p + k..], pat)
    requires forall j :: p <= j < p + k ==> !HasPrefix(b[j..], pat)
    ensures Find(b, p, pat) == k
    decreases k
  {
    if k > 0 {
      FindAt(b, p + 1, pat, k - 1);
    }
  }

  /** Find when there is no occurrence. */
  lemma {:induction false} FindNone(b: string, p: nat, pat: string)
    requires p <= |b|
    requires forall j :: p <= j <= |b| ==> !HasPrefix(b[j..], pat)
    ensures Find(b, p, pat) == -1
    decreases |b| - p
  {
    if p < |b| {
      FindNone(b, p + 1, pat);
    }
  }

  // One pass of the loop from `pos`.  A quote jumps to the next identical quote and ends the chunk
  // after it; "//" and "/*" end the chunk before them and resume after the
  // next newline or closer ("//" without a newline resumes right after the
  // slashes, "/*" without a closer one character later); a slash followed
  // by anything else skips that character.
  function StepAt(b: string, pos: nat): (m: Move)
    requires pos <= |b|
    ensures m.Cut? ==> pos <= m.end <= m.next <= |b| && pos < m.next
    ensures m.Skip? ==> pos < m.next <= |b|
  {
    var p := if pos < |b| then pos + 1 else pos;
    if p >= |b| then Last
    else if b[pos] == '"' || b[pos] == '\'' then
      var k := Find(b, p, [b[pos]]);
      if k < 0 then Unclosed else Cut(p + k + 1, p + k + 1)
    else if b[pos] == '/' then
      var p2 := p + 1;
      if p2 >= |b| then Last
      else if b[p] == '/' then Cut(pos, p2 + Find(b, p2, "\n") + 1)
      else if b[p] == '*' then Cut(pos, p2 + Find(b, p2, "*/") + 2)
      else Skip(p2)
    else Skip(p)
  }

  /** The chunks from the loop head, or None when the scan panics. */
  function ScanFrom(b: string, start: nat, pos: nat): (r: Option<seq<string>>)
    requires start <= pos <= |b|
    ensures r.Some? ==> r.value != []
    decreases |b| - pos
  {
    match StepAt(b, pos)
    case Last => Some([b[start..]])
    case Unclosed => None
    case Cut(end, next) => Cons(b[start..end], ScanFrom(b, next, next))
    case Skip(next) => ScanFrom(b, start, next)
  }

  /** The chunks of a whole body. */
  function Scan(body: string): Option<seq<string>> {
    ScanFrom(body, 0, 0)
  }

  /** The converted chunks, concatenated. */
  function ConvertAll(cs: seq<string>, convert: string -> string): string
    decreases |cs|
  {
    if cs == [] then [] else ConvertAll(cs[..|cs| - 1], convert) + convert(cs[|cs| - 1])
  }

  /** What processFuncBody returns (before gopp's final trimming). */
  function Processed(body: string, convert: string -> string): (r: Outcome<string>)
    ensures !r.Diverged? && (r.Panicked? ==> r.msg == OpenQuote)
  {
    match Scan(body)
    case None => Panicked(OpenQuote)
    case Some(cs) => Done(ConvertAll(cs, convert))
  }

  function Prepend(done: seq<string>, rest: Option<seq<string>>): Option<seq<string>> {
    match rest
    case None => None
    case Some(cs) => Some(done + cs)
  }

  lemma PrependCons(done: seq<string>, c: string, rest: Option<seq<string>>)
    ensures Prepend(done, Cons(c, rest)) == Prepend(done + [c], rest)
  {
    if rest.Some? {
      assert done + ([c] + rest.value) == done + [c] + rest.value;
    }
  }

  /** ScanFrom unfolded once. */
  lemma ScanFromStep(b: string, start: nat, pos: nat)
    requires start <= pos <= |b|
    ensures var m := StepAt(b, pos);
      ScanFrom(b, start, pos) ==
        match m
        case Last => Some([b[start..]])
        case Unclosed => None
        case Cut(end, next) => Cons(b[start..end], ScanFrom(b, next, next))
        case Skip(next) => ScanFrom(b, start, next)
  {
  }

  /** The body of the scan loop up to its bookkeeping: decodes the next
      character (bytes here, so the width is 1, or 0 at the end of the body)
      and decides what happens to the current chunk. */
  method NextMove(body: string, pos: nat) returns (m: Move)
    requires pos <= |body|
    ensures m == StepAt(body, pos)
  {
    var r := if pos < |body| then body[pos] else ' ';
    var p := pos + (if pos < |body| then 1 else 0);
    if p >= |body| {
      return Last;
    }
    if r == '"' || r == '\'' {
      var k := Index(body[p..], [r]);
      FindIsIndex(body, p, [r]);
      if k < 0 {
        return Unclosed;
      }
      return Cut(p + k + 1, p + k + 1);
    } else if r == '/' {
      var c2 := body[p];
      p := p + 1;
      if p >= |body| {
        return Last;
      }
      if c2 == '/' {
        var k := Index(body[p..], "\n");
        FindIsIndex(body, p, "\n");
        return Cut(p - 2, p + k + 1);
      } else if c2 == '*' {
        var k := Index(body[p..], "*/");
        FindIsIndex(body, p, "*/");
        return Cut(p - 2, p + k + 2);
      }
      return Skip(p);
    }
    return Skip(p);
  }

  lemma ConvertAllSnoc(cs: seq<string>, c: string, convert: string -> string)
    ensures ConvertAll(cs + [c], convert) == ConvertAll(cs, convert) + convert(c)
  {
    assert (cs + [c])[..|cs|] == cs;
  }

  /** processFuncBody before gopp's trimming: the chunks are converted and
      concatenated as the scan goes. */
  method ProcessFuncBody(body: string, convert: string -> string) returns (o: Outcome<string>)
    ensures o == Processed(body, convert)
  {
    var out := "";
    var start: nat, pos: nat := 0, 0;
    ghost var done: seq<string> := [];
    assert Prepend(done, Scan(body)) == Scan(body) by {
      if Scan(body).Some? {
        assert [] + Scan(body).value == Scan(body).value;
      }
    }
    while true
      invariant start <= pos <= |body|
      invariant out == ConvertAll(done, convert)
      invariant Scan(body) == Prepend(done, ScanFrom(body, start, pos))
      decreases |body| - pos
    {
      ScanFromStep(body, start, pos);
      var m := NextMove(body, pos);
      match m
      case Last =>
        ConvertAllSnoc(done, body[start..], convert);
        return Done(out + convert(body[start..]));
      case Unclosed =>
        return Panicked(OpenQuote);
      case Cut(end, next) =>
        PrependCons(done, body[start..end], ScanFrom(body, next, next));
        ConvertAllSnoc(done, body[start..end], convert);
        out := out + convert(body[start..end]);
        done := done + [body[start..end]];
        start, pos := next, next;
      case Skip(next) =>
        pos := next;
    }
  }

  /** A character that neither opens a literal nor can start a comment. */
  predicate Plain(c: char) {
    c != '"' && c != '\'' && c != '/'
  }

  predicate AllPlain(s: string) {
    forall k :: 0 <= k < |s| ==> Plain(s[k])
  }

  /** Plain characters only move the scan along. */
  lemma {:induction false} SkipPlain(b: string, start: nat, pos: nat, i: nat)
    requires start <= pos <= i < |b|
    requires forall k :: pos <= k < i ==> Plain(b[k])
    ensures ScanFrom(b, start, pos) == ScanFrom(b, start, i)
    decreases i - pos
  {
    if pos < i {
      ScanFromStep(b, start, pos);
      assert StepAt(b, pos) == Skip(pos + 1);
      SkipPlain(b, start, pos + 1, i);
    }
  }

  /** A body without quotes or slashes is a single chunk. */
  lemma PlainBody(body: string, convert: string -> string)
    requires AllPlain(body)
    ensures Scan(body) == Some([body])
    ensures Processed(body, convert) == Done(convert(body))
  {
    var last := if |body| > 1 then |body| - 1 else 0;
    if |body| > 1 {
      SkipPlain(body, 0, 0, last);
    }
    assert StepAt(body, last) == Last;
    ScanLast(body, 0, last);
    assert body[0..] == body;
    assert [body][..0] == [];
    assert ConvertAll([body], convert) == ConvertAll([], convert) + convert(body);
    assert ConvertAll([body], convert) == convert(body);
    assert Processed(body, convert) == Done(ConvertAll([body], convert));
  }

  /** StepAt on a body that has text `x` in front: the same move, shifted. */
  function Shift(m: Move, d: nat): Move {
    match m
    case Cut(end, next) => Cut(end + d, next + d)
    case Skip(next) => Skip(next + d)
    case _ => m
  }

  lemma {:induction false} FindShift(x: string, y: string, p: nat, pat: string)
    requires p <= |y|
    ensures Find(x + y, |x| + p, pat) == Find(y, p, pat)
    decreases |y| - p
  {
    assert (x + y)[|x| + p..] == y[p..];
    if p < |y| {
      FindShift(x, y, p + 1, pat);
    }
  }

  lemma StepShift(x: string, y: string, ps: nat)
    requires ps <= |y|
    ensures StepAt(x + y, |x| + ps) == Shift(StepAt(y, ps), |x|)
  {
    if ps + 1 < |y| {
      assert (x + y)[|x| + ps] == y[ps];
      if y[ps] == '"' || y[ps] == '\'' {
        QuoteShift(x, y, ps);
      } else if y[ps] == '/' {
        SlashShift(x, y, ps);
      }
    }
  }

  /** StepShift at a quote. */
  lemma QuoteShift(x: string, y: string, ps: nat)
    requires ps + 1 < |y| && (y[ps] == '"' || y[ps] == '\'')
    ensures StepAt(x + y, |x| + ps) == Shift(StepAt(y, ps), |x|)
  {
    assert (x + y)[|x| + ps] == y[ps];
    FindShift(x, y, ps + 1, [y[ps]]);
  }

  /** StepShift at a slash. */
  lemma SlashShift(x: string, y: string, ps: nat)
    requires ps + 1 < |y| && y[ps] == '/'
    ensures StepAt(x + y, |x| + ps) == Shift(StepAt(y, ps), |x|)
  {
    var b := x + y;
    var d := |x|;
    assert b[d + ps] == '/';
    if ps + 2 < |y| {
      assert b[d + ps + 1] == y[ps + 1];
      if y[ps + 1] == '/' {
        FindShift(x, y, ps + 2, "\n");
      } else if y[ps + 1] == '*' {
        FindShift(x, y, ps + 2, "*/");
      }
    }
  }

  lemma ScanLast(b: string, start: nat, pos: nat)
    requires start <= pos <= |b| && StepAt(b, pos) == Last
    ensures ScanFrom(b, start, pos) == Some([b[start..]])
  {
  }

  lemma ScanUnclosed(b: string, start: nat, pos: nat)
    requires start <= pos <= |b| && StepAt(b, pos) == Unclosed
    ensures ScanFrom(b, start, pos) == None
  {
  }

  lemma ScanCut(b: string, start: nat, pos: nat, end: nat, next: nat)
    requires start <= pos <= |b| && StepAt(b, pos) == Cut(end, next)
    ensures start <= end <= next <= |b|
    ensures ScanFrom(b, start, pos) == Cons(b[start..end], ScanFrom(b, next, next))
  {
  }

  lemma ScanSkip(b: string, start: nat, pos: nat, next: nat)
    requires start <= pos <= |b| && StepAt(b, pos) == Skip(next)
    ensures pos < next <= |b|
    ensures ScanFrom(b, start, pos) == ScanFrom(b, start, next)
  {
  }

  /** The scan of a body does not depend on text in front of where it starts. */
  lemma {:induction false} ScanShift(x: string, y: string, st: nat, ps: nat)
    requires st <= ps <= |y|
    ensures ScanFrom(x + y, |x| + st, |x| + ps) == ScanFrom(y, st, ps)
    decreases |y| - ps
  {
    var m := StepAt(y, ps);
    match m
    case Last =>
      ShiftLast(x, y, st, ps);
    case Unclosed =>
      ShiftUnclosed(x, y, st, ps);
    case Cut(end, next) =>
      ScanCut(y, st, ps, end, next);
      ScanShift(x, y, next, next);
      ShiftCut(x, y, st, ps, end, next);
    case Skip(next) =>
      ScanSkip(y, st, ps, next);
      ScanShift(x, y, st, next);
      ShiftSkip(x, y, st, ps, next);
  }

  lemma ShiftLast(x: string, y: string, st: nat, ps: nat)
    requires st <= ps <= |y| && StepAt(y, ps) == Last
    ensures ScanFrom(x + y, |x| + st, |x| + ps) == ScanFrom(y, st, ps)
  {
    var b := x + y;
    StepShift(x, y, ps);
    ScanLast(b, |x| + st, |x| + ps);
    ScanLast(y, st, ps);
    assert b[|x| + st..] == y[st..];
  }

  lemma ShiftUnclosed(x: string, y: string, st: nat, ps: nat)
    requires st <= ps <= |y| && StepAt(y, ps) == Unclosed
    ensures ScanFrom(x + y, |x| + st, |x| + ps) == ScanFrom(y, st, ps)
  {
    StepShift(x, y, ps);
    ScanUnclosed(x + y, |x| + st, |x| + ps);
    ScanUnclosed(y, st, ps);
  }

  lemma ShiftCut(x: string, y: string, st: nat, ps: nat, end: nat, next: nat)
    requires st <= ps <= |y| && StepAt(y, ps) == Cut(end, next)
    requires next <= |y| && ScanFrom(x + y, |x| + next, |x| + next) == ScanFrom(y, next, next)
    ensures ScanFrom(x + y, |x| + st, |x| + ps) == ScanFrom(y, st, ps)
  {
    var chunk, rest := y[st..end], ScanFrom(y, next, next);
    CutShift(x, y, st, ps, end, next);
    ScanCutTo(y, st, ps, end, next, chunk, rest);
    ScanCutTo(x + y, |x| + st, |x| + ps, |x| + end, |x| + next, chunk, rest);
  }

  /** ScanCut, with the chunk and the rest of the scan given. */
  lemma ScanCutTo(b: string, start: nat, pos: nat, end: nat, next: nat, chunk: string, rest: Option<seq<string>>)
    requires start <= pos <= |b| && StepAt(b, pos) == Cut(end, next)
    requires start <= end <= |b| && b[start..end] == chunk
    requires next <= |b| && ScanFrom(b, next, next) == rest
    ensures ScanFrom(b, start, pos) == Cons(chunk, rest)
  {
    ScanCut(b, start, pos, end, next);
  }

  /** A cut on `y` is the same cut on `x + y`, shifted. */
  lemma CutShift(x: string, y: string, st: nat, ps: nat, end: nat, next: nat)
    requires st <= ps <= |y| && StepAt(y, ps) == Cut(end, next)
    ensures end <= |y| && StepAt(x + y, |x| + ps) == Cut(|x| + end, |x| + next)
    ensures (x + y)[|x| + st..|x| + end] == y[st..end]
  {
    StepShift(x, y, ps);
    SliceShift(x, y, st, end);
  }

  /** Two scans that cut the same chunk and go on alike are alike. */
  lemma CutAlike(b: string, st: nat, ps: nat, end: nat, next: nat, c: string, st': nat, ps': nat, end': nat, next': nat)
    requires st <= ps <= |b| && StepAt(b, ps) == Cut(end, next)
    requires st' <= ps' <= |c| && StepAt(c, ps') == Cut(end', next')
    requires st <= end <= |b| && st' <= end' <= |c| && b[st..end] == c[st'..end']
    requires next <= |b| && next' <= |c| && ScanFrom(b, next, next) == ScanFrom(c, next', next')
    ensures ScanFrom(b, st, ps) == ScanFrom(c, st', ps')
  {
    ScanCut(b, st, ps, end, next);
    ScanCut(c, st', ps', end', next');
  }

  lemma SliceShift(x: string, y: string, i: nat, j: nat)
    requires i <= j <= |y|
    ensures (x + y)[|x| + i..|x| + j] == y[i..j]
  {
  }

  lemma ShiftSkip(x: string, y: string, st: nat, ps: nat, next: nat)
    requires st <= ps <= |y| && StepAt(y, ps) == Skip(next)
    requires next <= |y| && ScanFrom(x + y, |x| + st, |x| + next) == ScanFrom(y, st, next)
    ensures ScanFrom(x + y, |x| + st, |x| + ps) == ScanFrom(y, st, ps)
  {
    var rest := ScanFrom(y, st, next);
    StepShift(x, y, ps);
    ScanSkipTo(y, st, ps, next, rest);
    ScanSkipTo(x + y, |x| + st, |x| + ps, |x| + next, rest);
  }

  /** ScanSkip, with the rest of the scan given. */
  lemma ScanSkipTo(b: string, start: nat, pos: nat, next: nat, rest: Option<seq<string>>)
    requires start <= pos <= |b| && StepAt(b, pos) == Skip(next)
    requires next <= |b| && ScanFrom(b, start, next) == rest
    ensures ScanFrom(b, start, pos) == rest
  {
    ScanSkip(b, start, pos, next);
  }

  /** The scan resumes on `rest` as on a body of its own. */
  lemma ScanRest(pre: string, rest: string)
    ensures ScanFrom(pre + rest, |pre|, |pre|) == Scan(rest)
  {
    ScanShift(pre, rest, 0, 0);
  }

  /** Where a "//" at `n` sends the scan, when the first newline after it is
      at n + 2 + k. */
  lemma LineCommentStep(b: string, n: nat, k: nat)
    requires n + 2 + k < |b|
    requires b[n] == '/' && b[n + 1] == '/' && b[n + 2 + k] == '\n'
    requires forall j :: n + 2 <= j < n + 2 + k ==> b[j] != '\n'
    ensures StepAt(b, n) == Cut(n, n + 3 + k)
  {
    forall j | n + 2 <= j < n + 2 + k
      ensures !HasPrefix(b[j..], "\n")
    {
      assert b[j..][0] == b[j];
    }
    assert b[n + 2 + k..][0] == '\n';
    FindAt(b, n + 2, "\n", k);
  }

  // Where a "/*" at `n` sends the scan, when the first closer after it is
  // at n + 2 + k.
  lemma BlockCommentStep(b: string, n: nat, k: nat)
    requires n + 4 + k <= |b|
    requires b[n] == '/' && b[n + 1] == '*' && b[n + 2 + k] == '*' && b[n + 3 + k] == '/'
    requires forall j :: n + 2 <= j < n + 2 + k ==> !(b[j] == '*' && b[j + 1] == '/')
    ensures StepAt(b, n) == Cut(n, n + 4 + k)
  {
    forall j | n + 2 <= j < n + 2 + k
      ensures !HasPrefix(b[j..], "*/")
    {
      assert b[j..][0] == b[j] && b[j..][1] == b[j + 1];
    }
    assert b[n + 2 + k..][..2] == "*/";
    FindAt(b, n + 2, "*/", k);
  }

  /** Where a quote at `n` sends the scan, when the same quote comes next at
      n + 1 + k. */
  lemma QuoteStep(b: string, n: nat, k: nat)
    requires n + 1 + k < |b|
    requires (b[n] == '"' || b[n] == '\'') && b[n + 1 + k] == b[n]
    requires forall j :: n + 1 <= j < n + 1 + k ==> b[j] != b[n]
    ensures StepAt(b, n) == Cut(n + 2 + k, n + 2 + k)
  {
    forall j | n + 1 <= j < n + 1 + k
      ensures !HasPrefix(b[j..], [b[n]])
    {
      assert b[j..][0] == b[j];
    }
    assert b[n + 1 + k..][0] == b[n];
    FindAt(b, n + 1, [b[n]], k);
  }

  /** A quote at `n` that does not come again. */
  lemma OpenQuoteStep(b: string, n: nat)
    requires n + 1 < |b|
    requires (b[n] == '"' || b[n] == '\'')
    requires forall j :: n + 1 <= j < |b| ==> b[j] != b[n]
    ensures StepAt(b, n) == Unclosed
  {
    forall j | n + 1 <= j <= |b|
      ensures !HasPrefix(b[j..], [b[n]])
    {
      if j < |b| {
        assert b[j..][0] == b[j];
      }
    }
    FindNone(b, n + 1, [b[n]]);
  }

  /** A line comment ends the chunk before it and is dropped up to and
      including its newline. */
  lemma LineCommentDropped(a: string, text: string, rest: string)
    requires AllPlain(a) && '\n' !in text
    ensures Scan(a + "//" + text + "\n" + rest) == Cons(a, Scan(rest))
  {
    var pre := a + "//" + text + "\n";
    var b := pre + rest;
    var n, k := |a|, |text|;
    assert b[n] == '/' && b[n + 1] == '/' && b[n + 2 + k] == '\n';
    forall j | n + 2 <= j < n + 2 + k
      ensures b[j] != '\n'
    {
      assert b[j] == text[j - n - 2];
    }
    forall j | 0 <= j < n
      ensures Plain(b[j])
    {
      assert b[j] == a[j];
    }
    if n > 0 {
      SkipPlain(b, 0, 0, n);
    }
    LineCommentStep(b, n, k);
    ScanCut(b, 0, n, n, |pre|);
    assert b[0..n] == a;
    ScanRest(pre, rest);
    assert b == a + "//" + text + "\n" + rest;
  }

  /** A block comment ends the chunk before it and is dropped up to and
      including its closer. */
  lemma BlockCommentDropped(a: string, text: string, rest: string)
    requires AllPlain(a) && !Contains(text, "*/")
    ensures Scan(a + "/*" + text + "*/" + rest) == Cons(a, Scan(rest))
  {
    var pre := a + "/*" + text + "*/";
    var b := pre + rest;
    var n, k := |a|, |text|;
    assert b[n] == '/' && b[n + 1] == '*' && b[n + 2 + k] == '*' && b[n + 3 + k] == '/';
    forall j | n + 2 <= j < n + 2 + k
      ensures !(b[j] == '*' && b[j + 1] == '/')
    {
      var i := j - n - 2;
      if i + 1 < k {
        assert text[i..][..2] == [b[j], b[j + 1]];
      } else {
        assert b[j + 1] == '*';
      }
    }
    forall j | 0 <= j < n
      ensures Plain(b[j])
    {
      assert b[j] == a[j];
    }
    if n > 0 {
      SkipPlain(b, 0, 0, n);
    }
    BlockCommentStep(b, n, k);
    ScanCut(b, 0, n, n, |pre|);
    assert b[0..n] == a;
    ScanRest(pre, rest);
    assert b == a + "/*" + text + "*/" + rest;
  }

  /** A quoted literal is not protected: it ends the chunk it sits in, so it
      is handed to the rewrite together with the text before it, and a
      comment marker inside it is not a comment. */
  lemma LiteralStaysInChunk(a: string, q: char, lit: string, rest: string)
    requires AllPlain(a) && (q == '"' || q == '\'') && q !in lit
    ensures Scan(a + [q] + lit + [q] + rest) == Cons(a + [q] + lit + [q], Scan(rest))
  {
    var pre := a + [q] + lit + [q];
    var b := pre + rest;
    var n, k := |a|, |lit|;
    assert b[n] == q && b[n + 1 + k] == q;
    forall j | n + 1 <= j < n + 1 + k
      ensures b[j] != q
    {
      assert b[j] == lit[j - n - 1];
    }
    forall j | 0 <= j < n
      ensures Plain(b[j])
    {
      assert b[j] == a[j];
    }
    if n > 0 {
      SkipPlain(b, 0, 0, n);
    }
    QuoteStep(b, n, k);
    ScanCut(b, 0, n, |pre|, |pre|);
    assert b[0..|pre|] == pre;
    ScanRest(pre, rest);
    assert b == a + [q] + lit + [q] + rest;
  }

  /** A quote that is never closed (and is not the body's last character)
      makes processFuncBody panic. */
  lemma OpenQuotePanics(a: string, q: char, rest: string, convert: string -> string)
    requires AllPlain(a) && (q == '"' || q == '\'') && q !in rest && rest != []
    ensures Scan(a + [q] + rest) == None
    ensures Processed(a + [q] + rest, convert) == Panicked(OpenQuote)
  {
    var b := a + [q] + rest;
    var n := |a|;
    assert b[n] == q;
    forall j | n + 1 <= j < |b|
      ensures b[j] != q
    {
      assert b[j] == rest[j - n - 1];
    }
    forall j | 0 <= j < n
      ensures Plain(b[j])
    {
      assert b[j] == a[j];
    }
    if n > 0 {
      SkipPlain(b, 0, 0, n);
    }
    OpenQuoteStep(b, n);
    ScanUnclosed(b, 0, n);
  }

  /** The chunks concatenated. */
  function Concat(cs: seq<string>): string
    decreases |cs|
  {
    if cs == [] then [] else cs[0] + Concat(cs[1..])
  }

  /** Without comments, no text is lost: the chunks tile the body. */
  lemma {:induction false} ChunksTileFrom(b: string, start: nat, pos: nat)
    requires start <= pos <= |b|
    requires '/' !in b
    ensures ScanFrom(b, start, pos).Some? ==> Concat(ScanFrom(b, start, pos).value) == b[start..]
    decreases |b| - pos
  {
    ScanFromStep(b, start, pos);
    match StepAt(b, pos)
    case Last =>
      assert Concat([b[start..]]) == b[start..] + Concat([]);
    case Unclosed =>
    case Cut(end, next) =>
      ChunksTileFrom(b, next, next);
      if ScanFrom(b, next, next).Some? {
        var cs := ScanFrom(b, next, next).value;
        assert ([b[start..end]] + cs)[1..] == cs;
        assert pos < |b| && b[pos] != '/';
        assert b[start..] == b[start..end] + b[end..];
      }
    case Skip(next) =>
      ChunksTileFrom(b, start, next);
  }

  lemma ChunksTile(body: string)
    requires '/' !in body
    ensures Scan(body).Some? ==> Concat(Scan(body).value) == body
  {
    ChunksTileFrom(body, 0, 0);
    assert body[0..] == body;
  }

  /** The output when the scan cuts a first chunk off the rest. */
  function After(pre: string, o: Outcome<string>): Outcome<string> {
    match o
    case Done(s) => Done(pre + s)
    case _ => o
  }

  lemma {:induction false} ConvertAllCons(c: string, cs: seq<string>, convert: string -> string)
    ensures ConvertAll([c] + cs, convert) == convert(c) + ConvertAll(cs, convert)
    decreases |cs|
  {
    if cs != [] {
      var n := |cs| - 1;
      assert ([c] + cs)[..|cs|] == [c] + cs[..n];
      ConvertAllCons(c, cs[..n], convert);
    } else {
      assert [c] + cs == [c];
      assert [c][..0] == [];
    }
  }

  /** What processFuncBody returns for a body that starts with a chunk. */
  lemma ProcessedCons(body: string, c: string, rest: string, convert: string -> string)
    requires Scan(body) == Cons(c, Scan(rest))
    ensures Processed(body, convert) == After(convert(c), Processed(rest, convert))
  {
    if Scan(rest).Some? {
      ConvertAllCons(c, Scan(rest).value, convert);
    }
  }

  /** A line comment leaves nothing in the output. */
  lemma LineCommentOutput(a: string, text: string, rest: string, convert: string -> string)
    requires AllPlain(a) && '\n' !in text
    ensures Processed(a + "//" + text + "\n" + rest, convert) == After(convert(a), Processed(rest, convert))
  {
    LineCommentDropped(a, text, rest);
    ProcessedCons(a + "//" + text + "\n" + rest, a, rest, convert);
  }

  /** A block comment leaves nothing in the output. */
  lemma BlockCommentOutput(a: string, text: string, rest: string, convert: string -> string)
    requires AllPlain(a) && !Contains(text, "*/")
    ensures Processed(a + "/*" + text + "*/" + rest, convert) == After(convert(a), Processed(rest, convert))
  {
    BlockCommentDropped(a, text, rest);
    ProcessedCons(a + "/*" + text + "*/" + rest, a, rest, convert);
  }

  /** A literal goes through the rewrite with the text before it. */
  lemma LiteralRewritten(a: string, q: char, lit: string, rest: string, convert: string -> string)
    requires AllPlain(a) && (q == '"' || q == '\'') && q !in lit
    ensures Processed(a + [q] + lit + [q] + rest, convert) == After(convert(a + [q] + lit + [q]), Processed(rest, convert))
  {
    LiteralStaysInChunk(a, q, lit, rest);
    ProcessedCons(a + [q] + lit + [q] + rest, a + [q] + lit + [q], rest, convert);
  }
}
