/**
  Lexical items as they travel from the lexer to the parsers (lexer.go:30-73),
  and the stream that replaces the lexer's unbuffered channel.
 */
module Items {

  /** itemType.  `Override` belongs to the lexer the newer parser expects; the
      lexer modelled here never produces it. */
  datatype Kind =
    | Error | Dot | EOF | Class | Extends | OpenBrace | CloseBrace | Func | Text
    | LeftDelim | RightDelim | FuncBody | FuncParams | Member | Comment
    | LineComment | Package | Override

  /** item: a kind and the text it carries. */
  datatype Token = Token(kind: Kind, val: string)

  /** The escape strconv.Quote writes for one character. */
  function EscapeChar(c: char): (r: string)
    ensures r != []
  {
    if c == '"' then "\\\""
    else if c == '\\' then "\\\\"
    else if c == '\n' then "\\n"
    else if c == '\t' then "\\t"
    else if c == '\r' then "\\r"
    else if c == '\U{7}' then "\\a"
    else if c == '\U{8}' then "\\b"
    else if c == '\U{C}' then "\\f"
    else if c == '\U{B}' then "\\v"
    else if c < ' ' || c == '\U{7F}' then "\\x" + [HexDigit(c as int / 16), HexDigit(c as int % 16)]
    else [c]
  }

  function HexDigit(d: int): char
    requires 0 <= d < 16
  {
    "0123456789abcdef"[d]
  }

  function Escape(s: string): string
    decreases |s|
  {
    if s == [] then [] else EscapeChar(s[0]) + Escape(s[1..])
  }

  /** fmt's %q verb: the text in double quotes with Go escapes. */
  function Quote(s: string): (r: string)
    ensures |r| >= 2 && r[0] == '"' && r[|r| - 1] == '"'
  {
    "\"" + Escape(s) + "\""
  }

  /** item.String(): error items show their message, EOF shows "EOF", any
      other item its quoted text, cut to ten characters and marked "..." when
      longer (fmt's "%.10q..."). */
  function Describe(t: Token): (r: string)
    ensures t.kind == Error ==> r == t.val
    ensures t.kind == EOF ==> r == "EOF"
    ensures t.kind != Error && t.kind != EOF ==> |r| >= 2 && r[0] == '"'
  {
    if t.kind == Error then t.val
    else if t.kind == EOF then "EOF"
    else if |t.val| > 10 then Quote(t.val[..10]) + "..."
    else Quote(t.val)
  }

  /** How the token stream ends once the lexer has produced `items`:
      Closed - the lexer stopped and closed its channel;
      Stalled - the lexer loops forever without producing another item;
      Crashed - the lexer goroutine hit a run-time panic. */
  datatype Ending = Closed | Stalled | Crashed(msg: string)

  datatype Stream = Stream(items: seq<Token>, ending: Ending)

  /** What lexer.nextItem gives the parser at position k of the stream. */
  datatype Read = Got(t: Token) | ReadPastEnd | Blocked | LexerCrashed(msg: string)

  function ReadAt(st: Stream, k: nat): (r: Read)
    ensures r.Got? <==> k < |st.items|
    ensures r.ReadPastEnd? <==> k >= |st.items| && st.ending.Closed?
  {
    if k < |st.items| then Got(st.items[k])
    else match st.ending
      case Closed => ReadPastEnd
      case Stalled => Blocked
      case Crashed(m) => LexerCrashed(m)
  }

  /** How a step of the translator ends: with a value, with a Go panic (its
      message), or by never returning. */
  datatype Outcome<T> = Done(value: T) | Panicked(msg: string) | Diverged

  /** nextItem panics on a closed channel; a lexer that loops forever leaves
      the parser blocked; a crashed lexer takes the program down. */
  function ReadFailure<T>(r: Read): (o: Outcome<T>)
    requires !r.Got?
    ensures !o.Done?
  {
    match r
    case ReadPastEnd => Panicked("Read past end of file")
    case Blocked => Diverged
    case LexerCrashed(m) => Panicked(m)
  }

  /** The text of a run of items, concatenated. */
  function Joined(ts: seq<Token>): string
    decreases |ts|
  {
    if ts == [] then [] else Joined(ts[..|ts| - 1]) + ts[|ts| - 1].val
  }

  lemma JoinedAppend(ts: seq<Token>, us: seq<Token>)
    ensures Joined(ts + us) == Joined(ts) + Joined(us)
    decreases |us|
  {
    if us != [] {
      assert (ts + us)[..|ts + us| - 1] == ts + us[..|us| - 1];
      JoinedAppend(ts, us[..|us| - 1]);
    } else {
      assert ts + us == ts;
    }
  }

  /** A panic or a hang passes up through the caller unchanged. */
  function Propagate<T, U>(o: Outcome<T>): (r: Outcome<U>)
    requires !o.Done?
    ensures !r.Done?
    ensures r.Panicked? <==> o.Panicked?
    ensures r.Panicked? ==> r.msg == o.msg
  {
    match o
    case Panicked(m) => Panicked(m)
    case Diverged => Diverged
  }

  /** Two outcomes that fail alike: both succeed, or both hang, or both
      panic with the same message. */
  predicate SameFailure<T, U>(o: Outcome<T>, r: Outcome<U>) {
    (o.Done? <==> r.Done?) && (o.Diverged? <==> r.Diverged?) && (o.Panicked? ==> r.Panicked? && o.msg == r.msg)
  }
}
