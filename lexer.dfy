/**
  The lexer of lexer.go as a class whose methods move `start`, `pos` and
  `width` over the input.  The channel to the parser becomes the `items`
  sequence that `emit` appends to.  Every state function is proved to do what
  its step function in LexSpec says, and `Run` to produce `LexSpec.Lex(input)`.
 */
module Lexer {
  import opened GoStrings
  import opened Items
  import S = LexSpec

  class Lexer {
    const input: string
    var start: nat
    var pos: nat
    var width: nat
    var items: seq<Token>

    ghost predicate Valid()
      reads this
    {
      start <= pos && width <= 1
    }

    /** lex(input), before the state machine starts. */
    constructor (input: string)
      ensures this.input == input && Valid()
      ensures start == 0 && pos == 0 && items == []
    {
      this.input := input;
      start, pos, width := 0, 0, 0;
      items := [];
    }

    /** The state after a state function: the items it emitted and, when it
        hands over to another state, the position that state starts at. */
    ghost predicate Took(r: S.StepResult, before: seq<Token>, next: S.Transition)
      reads this
    {
      items == before + r.out && next == r.next &&
      (next.Then? ==> pos == r.pos && (next.fn != S.LexExtendsClassName ==> start == pos))
    }

    /** next: the character at pos, or eof (width 0, pos unchanged) at or past
        the end of the input. */
    method Next() returns (r: S.Rune)
      modifies this`pos, this`width
      ensures r == S.RuneAt(input, old(pos))
      ensures width == (if r.Eof? then 0 else 1) && pos == old(pos) + width
    {
      if pos >= |input| {
        width := 0;
        return S.Eof;
      }
      r := S.Ch(input[pos]);
      width := 1;
      pos := pos + width;
    }

    /** backup: one step back over the character just read. */
    method Backup()
      requires width <= pos && start <= pos - width
      modifies this`pos
      ensures pos == old(pos) - width
    {
      pos := pos - width;
    }

    method Ignore()
      modifies this`start
      ensures start == pos
    {
      start := pos;
    }

    /** peek: the next character, leaving pos where it was. */
    method Peek() returns (r: S.Rune)
      requires Valid()
      modifies this`pos, this`width
      ensures Valid() && pos == old(pos) && r == S.RuneAt(input, pos)
    {
      r := Next();
      Backup();
    }

    /** emit: the text between start and pos becomes an item. */
    method Emit(k: Kind)
      requires start <= pos <= |input|
      modifies this`items, this`start
      ensures items == old(items) + [Token(k, input[old(start)..pos])]
      ensures start == pos
    {
      items := items + [Token(k, input[start..pos])];
      start := pos;
    }

    /** errorf: an error item with the message (the caller ends the scan). */
    method Errorf(msg: string)
      modifies this`items
      ensures items == old(items) + [Token(Error, msg)]
    {
      items := items + [Token(Error, msg)];
    }

    /** ignoreSpace: skips blanks and tabs, moving start past each one. */
    method IgnoreSpace()
      requires Valid()
      modifies this`start, this`pos, this`width
      ensures Valid() && pos == S.SkipSpace(input, old(pos))
      ensures start == if pos > old(pos) then pos else old(start)
    {
      while true
        invariant Valid() && old(pos) <= pos
        invariant S.SkipSpace(input, pos) == S.SkipSpace(input, old(pos))
        invariant start == if pos > old(pos) then pos else old(start)
        decreases |input| - pos
      {
        var r := Next();
        if r.Eof? {
          return;
        } else if S.IsSpace(r.c) {
          Ignore();
        } else {
          Backup();
          return;
        }
      }
    }

    /** acceptSpace: skips blanks and tabs, leaving start alone. */
    method AcceptSpace()
      requires Valid()
      modifies this`pos, this`width
      ensures Valid() && pos == S.SkipSpace(input, old(pos))
    {
      while true
        invariant Valid() && old(pos) <= pos
        invariant S.SkipSpace(input, pos) == S.SkipSpace(input, old(pos))
        decreases |input| - pos
      {
        var r := Next();
        if r.Eof? || !S.IsSpace(r.c) {
          Backup();
          return;
        }
      }
    }

    /** nextLine: reads through the next newline, or to the end. */
    method NextLine()
      requires Valid()
      modifies this`pos, this`width
      ensures Valid() && pos == S.LineEnd(input, old(pos))
    {
      while true
        invariant Valid() && old(pos) <= pos
        invariant S.LineEnd(input, pos) == S.LineEnd(input, old(pos))
        decreases |input| - pos
      {
        var r := Next();
        if r == S.Eof || r == S.Ch('\n') {
          return;
        }
      }
    }

    /** acceptUntil: reads up to the first character of `stops`.  At the end
        of input next() answers eof for ever, and eof is no terminator, so the
        loop of the source never ends: `spins` reports that case. */
    method AcceptUntil(stops: set<char>) returns (spins: bool)
      requires Valid()
      modifies this`pos, this`width
      ensures Valid()
      ensures spins <==> S.UntilEnd(input, old(pos), stops) >= |input|
      ensures !spins ==> pos == S.UntilEnd(input, old(pos), stops)
    {
      while true
        invariant Valid() && old(pos) <= pos
        invariant S.UntilEnd(input, pos, stops) == S.UntilEnd(input, old(pos), stops)
        decreases |input| - pos
      {
        var r := Next();
        if r.Eof? {
          return true;
        }
        if r.c in stops {
          Backup();
          return false;
        }
      }
    }

    /** lexComment, with the opening marker at pos. */
    method LexComment(nextState: S.StateFn) returns (next: S.Transition)
      requires Valid() && start == pos && S.At(input, pos, "/*")
      modifies this
      ensures Valid() && Took(S.CommentStep(input, old(pos), nextState), old(items), next)
    {
      pos := pos + 2;
      var i := Index(input[pos..], "*/");
      if i < 0 {
        Errorf("unclosed comment");
        return S.Stop;
      }
      pos := pos + i + 2;
      Emit(Comment);
      return S.Then(nextState);
    }

    /** lexIdentifier */
    method LexIdentifier(typ: Kind, nextState: S.StateFn) returns (next: S.Transition)
      requires Valid()
      modifies this
      ensures Valid() && Took(S.IdentifierStep(input, old(pos), typ, nextState), old(items), next)
    {
      ghost var p := old(pos);
      Ignore();
      IgnoreSpace();
      ghost var q := S.SkipSpace(input, p);
      assert start == pos == q;
      while true
        invariant Valid() && start == q <= pos && items == old(items)
        invariant S.IdEnd(input, pos) == S.IdEnd(input, q)
        decreases |input| - pos
      {
        var r := Next();
        if r == S.Eof || r == S.Ch('\n') {
          Errorf("Missing identifier");
          return S.Stop;
        }
        if !S.IsIdChar(r.c) {
          // The source reports "Invalid identifier" when pos == start here,
          // which cannot happen: pos has already moved past r.
          Backup();
          Emit(typ);
          return S.Then(nextState);
        }
      }
    }

    /** The `if l.pos > l.start { l.emit(itemText) }` of lexText: the text
        read so far, if any, becomes a text item. */
    method FlushText()
      requires start <= pos <= |input|
      modifies this`items, this`start
      ensures items == old(items) + S.Flush(input, old(start), pos) && start == pos
    {
      if pos > start {
        Emit(Text);
      }
    }

    /** The line loop of lexText: from the start of a line, skips blanks
        and tabs; stops there when "class ", the comment opener or "package"
        follows, and otherwise reads the line and goes on, up to the end. */
    method SeekTextTrigger()
      requires Valid() && pos <= |input|
      modifies this`pos, this`width
      ensures Valid() && pos == S.TextStop(input, old(pos))
    {
      while true
        invariant Valid() && old(pos) <= pos <= |input|
        invariant S.TextStop(input, pos) == S.TextStop(input, old(pos))
        decreases |input| - pos
      {
        AcceptSpace();
        if S.TextTrigger(input, pos) {
          return;
        }
        NextLine();
        var r := Peek();
        if r == S.Eof {
          return;
        }
      }
    }

    /** lexText */
    method LexText() returns (next: S.Transition)
      requires Valid() && start == pos <= |input|
      modifies this
      ensures Valid() && Took(S.TextStep(input, old(pos), old(pos)), old(items), next)
    {
      SeekTextTrigger();
      if S.At(input, pos, "class ") {
        FlushText();
        return S.Then(S.LexClass);
      } else if S.At(input, pos, "/*") {
        FlushText();
        next := LexComment(S.LexText);
        return;
      } else if S.At(input, pos, "package") {
        S.PackageIsIdentifier(input, pos);
        next := LexIdentifier(Package, S.LexText);
        return;
      }
      FlushText();
      assert input[start..pos] == [];
      Emit(EOF);
      return S.Stop;
    }

    /** lexClass, with "class " at pos. */
    method LexClass() returns (next: S.Transition)
      requires Valid() && start == pos && S.At(input, pos, "class ")
      modifies this
      ensures Valid() && Took(S.ClassStep(input, old(pos)), old(items), next)
    {
      pos := pos + 5;
      pos := pos + 1;
      next := LexIdentifier(Kind.Class, S.LexExtends);
    }

    /** lexExtends: the missing keyword is reported and skipped all the same. */
    method LexExtends() returns (next: S.Transition)
      requires Valid() && start == pos <= |input|
      modifies this
      ensures Valid() && Took(S.ExtendsStep(input, old(pos)), old(items), next)
      ensures start == S.SkipSpace(input, old(pos))
    {
      IgnoreSpace();
      if !S.At(input, pos, "extends") {
        Errorf("Missing 'extends' keyword");
      }
      pos := pos + 7;
      return S.Then(S.LexExtendsClassName);
    }

    method LexExtendsClassName() returns (next: S.Transition)
      requires Valid()
      modifies this
      ensures Valid() && Took(S.ExtendsClassNameStep(input, old(pos)), old(items), next)
    {
      next := LexIdentifier(Kind.Extends, S.LexBodyOpen);
    }

    /** lexLeftDelim: one character past the blanks, unchecked.  `crash` is
        the panic of the slice in emit when that runs past the input. */
    method LexLeftDelim() returns (crash: Option<string>)
      requires Valid() && start == pos <= |input|
      modifies this
      ensures Valid()
      ensures crash.Some? <==> S.SkipSpace(input, old(pos)) >= |input|
      ensures crash.Some? ==> crash.value == S.SliceBeyond(|input| + 1, |input|) && items == old(items)
      ensures crash.None? ==>
        var q := S.SkipSpace(input, old(pos));
        items == old(items) + [Token(LeftDelim, input[q..q + 1])] && start == pos == q + 1
    {
      IgnoreSpace();
      pos := pos + 1;
      if pos > |input| {
        return Some(S.SliceBeyond(pos, |input|));
      }
      Emit(LeftDelim);
      return None;
    }

    method LexBodyOpen() returns (next: S.Transition)
      requires Valid() && start == pos <= |input|
      modifies this
      ensures Valid() && Took(S.BodyOpenStep(input, old(pos)), old(items), next)
    {
      var crash := LexLeftDelim();
      if crash.Some? {
        return S.Crashes(crash.value);
      }
      return S.Then(S.LexClassBody);
    }

    /** lexRightDelim, with "}" at pos. */
    method LexRightDelim()
      requires Valid() && start == pos && S.At(input, pos, "}")
      modifies this
      ensures Valid() && items == old(items) + [Token(RightDelim, "}")] && start == pos == old(pos) + 1
    {
      pos := pos + 1;
      assert input[start..pos] == input[start..][..1];
      Emit(RightDelim);
    }

    method LexClassBody() returns (next: S.Transition)
      requires Valid() && start == pos <= |input|
      modifies this
      ensures Valid() && Took(S.ClassBodyStep(input, old(pos)), old(items), next)
    {
      IgnoreSpace();
      if S.At(input, pos, "}") {
        return S.Then(S.LexClassClose);
      }
      if S.At(input, pos, "func ") {
        return S.Then(S.LexFunc);
      }
      if S.At(input, pos, "/*") {
        next := LexComment(S.LexClassBody);
        return;
      }
      if S.At(input, pos, "//") {
        NextLine();
        Emit(LineComment);
        return S.Then(S.LexClassBody);
      }
      return S.Then(S.LexMember);
    }

    method LexClassClose() returns (next: S.Transition)
      requires Valid() && start == pos && S.At(input, pos, "}")
      modifies this
      ensures Valid() && Took(S.ClassCloseStep(input, old(pos)), old(items), next)
    {
      LexRightDelim();
      return S.Then(S.LexText);
    }

    /** lexFunc, with "func " at pos. */
    method LexFunc() returns (next: S.Transition)
      requires Valid() && start == pos && S.At(input, pos, "func ")
      modifies this
      ensures Valid() && Took(S.FuncStep(input, old(pos)), old(items), next)
    {
      pos := pos + 4;
      start := pos;
      IgnoreSpace();
      next := LexIdentifier(Func, S.LexFuncParams);
    }

    method LexFuncParams() returns (next: S.Transition)
      requires Valid() && start == pos <= |input|
      modifies this
      ensures Valid() && Took(S.FuncParamsStep(input, old(pos)), old(items), next)
    {
      var spins := AcceptUntil({'{', '\n'});
      if spins {
        return S.Spins;
      }
      var r := Peek();
      if r != S.Ch('{') {
        Errorf("Missing opening bracket for function.");
        return S.Stop;
      }
      Emit(FuncParams);
      return S.Then(S.LexFuncBody);
    }

    /** The first loop of lexFuncBody: reads up to and including the next
        "{", or to the end of input. */
    method SkipPastOpenBrace()
      requires Valid() && pos <= |input|
      modifies this`pos, this`width
      ensures Valid() && old(pos) <= pos <= |input|
      ensures var o := S.UntilEnd(input, old(pos), {'{'});
        pos == if o < |input| then o + 1 else |input|
    {
      ghost var o := S.UntilEnd(input, old(pos), {'{'});
      var r := Next();
      while r != S.Ch('{') && r != S.Eof
        invariant Valid() && old(pos) <= pos - width && pos <= |input|
        invariant r == S.RuneAt(input, pos - width) && width == (if r.Eof? then 0 else 1)
        invariant o == S.UntilEnd(input, pos - width, {'{'})
        decreases |input| - pos + width
      {
        r := Next();
      }
    }

    /** lexFuncBody: finds the "{" and counts brace depth down to zero. */
    method LexFuncBody() returns (next: S.Transition)
      requires Valid() && start == pos <= |input|
      modifies this
      ensures Valid() && Took(S.FuncBodyStep(input, old(pos)), old(items), next)
    {
      ghost var o := S.UntilEnd(input, old(pos), {'{'});
      ghost var body := S.BodyEnd(input, o + 1, 1);
      SkipPastOpenBrace();
      assert S.BodyEnd(input, pos, 1) == body;
      var depth := 1;
      while depth > 0
        invariant Valid() && start == old(pos) <= pos <= |input| && items == old(items)
        invariant depth > 0 ==> S.BodyEnd(input, pos, depth) == body
        invariant depth == 0 ==> body == Some(pos)
        decreases |input| - pos
      {
        var r := Next();
        if r == S.Ch('{') {
          depth := depth + 1;
        } else if r == S.Ch('}') {
          depth := depth - 1;
        } else if r == S.Eof {
          assert body.None?;
          Errorf("Unexpected EOF. Function body is still open.");
          return S.Stop;
        }
      }
      assert body == Some(pos);
      Emit(FuncBody);
      return S.Then(S.LexClassBody);
    }

    method LexMember() returns (next: S.Transition)
      requires Valid() && start == pos <= |input|
      modifies this
      ensures Valid() && Took(S.MemberStep(input, old(pos)), old(items), next)
    {
      NextLine();
      if start + 1 < pos {
        Emit(Member);
      } else {
        Ignore();
      }
      return S.Then(S.LexClassBody);
    }

    /** Calls the state function `fn` stands for. */
    method Call(fn: S.StateFn) returns (next: S.Transition)
      requires Valid() && S.Entry(input, pos, fn) && (fn != S.LexExtendsClassName ==> start == pos)
      modifies this
      ensures Valid() && Took(S.Step(input, old(pos), fn), old(items), next)
    {
      match fn
      case LexText => next := LexText();
      case LexClass => next := LexClass();
      case LexExtends => next := LexExtends();
      case LexExtendsClassName => next := LexExtendsClassName();
      case LexBodyOpen => next := LexBodyOpen();
      case LexClassBody => next := LexClassBody();
      case LexClassClose => next := LexClassClose();
      case LexFunc => next := LexFunc();
      case LexFuncParams => next := LexFuncParams();
      case LexFuncBody => next := LexFuncBody();
      case LexMember => next := LexMember();
    }

    /** run: state functions from lexText until one returns nil.  Where the
        source would loop for ever the scan ends Stalled, where it would panic
        it ends Crashed. */
    method Run() returns (ending: Ending)
      requires Valid() && start == 0 && pos == 0 && items == []
      modifies this
      ensures Stream(items, ending) == S.Lex(input)
    {
      var state := S.LexText;
      while true
        invariant Valid() && S.Entry(input, pos, state)
        invariant state != S.LexExtendsClassName ==> start == pos
        invariant S.Lex(input) == Stream(items + S.LexFrom(input, pos, state).items, S.LexFrom(input, pos, state).ending)
        decreases S.Remaining(input, pos), S.Rank(state)
      {
        if state == S.LexMember && pos >= |input| {
          // lexMember and lexClassBody now hand over to each other for ever,
          // emitting nothing and not moving.
          S.ClassBodyCycle(input, pos);
          return Stalled;
        }
        ghost var p := pos;
        ghost var before := items;
        ghost var rest := S.LexFrom(input, pos, state);
        var next := Call(state);
        S.LexFromStep(input, p, state);
        ghost var r := S.Step(input, p, state);
        assert items == before + r.out;
        if next.Then? {
          ghost var tail := S.LexFrom(input, pos, next.fn);
          assert rest.items == r.out + tail.items;
          AppendAssoc(before, r.out, tail.items);
          state := next.fn;
        } else {
          return S.EndingOf(next);
        }
      }
    }
  }

  lemma AppendAssoc(a: seq<Token>, b: seq<Token>, c: seq<Token>)
    ensures (a + b) + c == a + (b + c)
  {
  }

  /** lex(input) and every item the parser can then read. */
  method Lex(input: string) returns (st: Stream)
    ensures st == S.Lex(input)
  {
    var l := new Lexer(input);
    var ending := l.Run();
    st := Stream(l.items, ending);
  }
}
