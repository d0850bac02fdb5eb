/**
  What the older generator promises: how parse buffers comments and
  registers classes, what happens after a class runs into the end of the
  stream, and the parts of the printed class that outNew and the interface
  are built from.
 */
module LegacyProperties {
  import opened GoStrings
  import opened Items
  import Params
  import opened Legacy

  // ---------------------------------------------------------------------
  // The registry

  /** Whatever parse returns extends the ast it started with, and the
      registry it leaves is `base` with every class of the ast registered in
      order, provided the registry it started with was. */
  lemma {:induction false} ParseFromRegisters(st: Stream, k: nat, comment: string, out: seq<Node>, reg: Registry, base: Registry)
    requires reg == Registered(base, out)
    ensures var r := ParseFrom(st, k, comment, out, reg);
      r.Done? ==> out <= r.value.nodes && r.value.classes == Registered(base, r.value.nodes)
    decreases |st.items| - k
  {
    match ReadAt(st, k)
    case Got(t) =>
      match t.kind {
        case Text =>
          var n := Stringer(comment + t.val);
          RegisteredSnoc(base, out, n);
          ParseFromRegisters(st, k + 1, "", out + [n], reg, base);
        case Class =>
          var cs := ClassFrom(st, k + 1, t.val, comment, reg);
          if cs.Done? {
            RegisteredSnoc(base, out, cs.value.node);
            ParseFromRegisters(st, cs.value.next, "", out + [cs.value.node], cs.value.classes, base);
          }
        case Error =>
          RegisteredSnoc(base, out, Stringer("Error: " + t.val));
        case Comment =>
          ParseFromRegisters(st, k + 1, comment + t.val, out, reg, base);
        case LineComment =>
          ParseFromRegisters(st, k + 1, comment + t.val, out, reg, base);
        case EOF =>
          if |comment| > 0 {
            RegisteredSnoc(base, out, Stringer(comment));
          } else {
            assert out + [] == out;
          }
        case Package =>
          var n := Stringer(t.val);
          RegisteredSnoc(base, out, n);
          ParseFromRegisters(st, k + 1, comment, out + [n], reg, base);
        case _ =>
          RegisteredSnoc(base, out, Stringer("Unexpected token: " + Describe(t)));
      }
    case _ =>
  }

  /** After a whole parse the registry is the starting one with the parsed
      classes registered in the order they appear. */
  lemma ParseRegisters(st: Stream, reg: Registry)
    ensures var r := Parse(st, reg);
      r.Done? ==> r.value.classes == Registered(reg, r.value.nodes)
  {
    ParseFromRegisters(st, 0, "", [], reg, reg);
  }

  /** Last write wins: a class that no later class of the same name follows
      is the registry's entry for that name. */
  lemma {:induction false} LastWriteWins(reg: Registry, nodes: seq<Node>, i: nat)
    requires i < |nodes| && nodes[i].ClassNode?
    requires forall j :: i < j < |nodes| ==> !(nodes[j].ClassNode? && nodes[j].c.name == nodes[i].c.name)
    ensures var r := Registered(reg, nodes);
      nodes[i].c.name in r && r[nodes[i].c.name] == nodes[i].c
    decreases |nodes|
  {
    if i < |nodes| - 1 {
      LastWriteWins(reg, nodes[..|nodes| - 1], i);
    }
  }

  /** A name that no class in `nodes` carries keeps its earlier entry, or its
      absence. */
  lemma {:induction false} OtherNamesKept(reg: Registry, nodes: seq<Node>, name: string)
    requires forall j :: 0 <= j < |nodes| ==> !(nodes[j].ClassNode? && nodes[j].c.name == name)
    ensures var r := Registered(reg, nodes);
      (name in r <==> name in reg) && (name in reg ==> r[name] == reg[name])
    decreases |nodes|
  {
    if nodes != [] {
      OtherNamesKept(reg, nodes[..|nodes| - 1], name);
    }
  }

  // ---------------------------------------------------------------------
  // Comment buffering at the top level

  /** Pending comments are glued to the front of the next text. */
  lemma CommentJoinsText(c: string, s: string, e: Ending, reg: Registry)
    ensures Parse(Stream([Token(Comment, c), Token(Text, s), Token(EOF, "")], e), reg) ==
      Done(Parsed([Stringer(c + s)], reg, 3))
  {
    var st := Stream([Token(Comment, c), Token(Text, s), Token(EOF, "")], e);
    assert "" + c == c;
    assert [] + [Stringer(c + s)] == [Stringer(c + s)];
    assert [Stringer(c + s)] + [] == [Stringer(c + s)];
    assert ParseFrom(st, 2, "", [Stringer(c + s)], reg) == Done(Parsed([Stringer(c + s)], reg, 3));
    assert ParseFrom(st, 1, c, [], reg) == ParseFrom(st, 2, "", [Stringer(c + s)], reg);
  }

  /** A package line is emitted at once and does not take the pending
      comment, which is flushed at the end of the stream. */
  lemma PackageLeavesComment(c: string, p: string, e: Ending, reg: Registry)
    requires c != ""
    ensures Parse(Stream([Token(Comment, c), Token(Package, p), Token(EOF, "")], e), reg) ==
      Done(Parsed([Stringer(p), Stringer(c)], reg, 3))
  {
    var st := Stream([Token(Comment, c), Token(Package, p), Token(EOF, "")], e);
    assert "" + c == c;
    assert [] + [Stringer(p)] == [Stringer(p)];
    assert [Stringer(p)] + [Stringer(c)] == [Stringer(p), Stringer(c)];
    assert ParseFrom(st, 2, c, [Stringer(p)], reg) == Done(Parsed([Stringer(p), Stringer(c)], reg, 3));
    assert ParseFrom(st, 1, c, [], reg) == ParseFrom(st, 2, c, [Stringer(p)], reg);
  }

  /** An error item ends the parse: the pending comment is lost and nothing
      after the error is read. */
  lemma ErrorDropsComment(c: string, m: string, rest: seq<Token>, e: Ending, reg: Registry)
    ensures Parse(Stream([Token(Comment, c), Token(Error, m)] + rest, e), reg) ==
      Done(Parsed([Stringer("Error: " + m)], reg, 2))
  {
    var st := Stream([Token(Comment, c), Token(Error, m)] + rest, e);
    assert ReadAt(st, 0) == Got(Token(Comment, c));
    assert ReadAt(st, 1) == Got(Token(Error, m));
    assert [] + [Stringer("Error: " + m)] == [Stringer("Error: " + m)];
    assert "" + c == c;
    assert ParseFrom(st, 1, c, [], reg) == Done(Parsed([Stringer("Error: " + m)], reg, 2));
    assert ParseFrom(st, 0, "", [], reg) == ParseFrom(st, 1, "" + c, [], reg);
  }

  // ---------------------------------------------------------------------
  // Comment attachment inside a class

  /** The comments read since the last member or method go with the next
      member, and the next member after that starts with none. */
  lemma MemberTakesComments(st: Stream, k: nat, c: ClassDef, cur: string, text: string, m1: string, m2: string, reg: Registry)
    requires c.ctorParams == CtorParams(c.funcs)
    requires k + 4 <= |st.items|
    requires st.items[k] == Token(Comment, text) && st.items[k + 1] == Token(Member, m1)
    requires st.items[k + 2] == Token(Member, m2) && st.items[k + 3].kind == RightDelim
    ensures var d := c.(members := c.members + [MemberDef(m1, cur + text), MemberDef(m2, "")]);
      BodyFrom(st, k, c, cur, reg) == Done(ClassStep(ClassNode(d), reg[c.name := d], k + 4))
  {
    var c1 := c.(members := c.members + [MemberDef(m1, cur + text)]);
    var d := c1.(members := c1.members + [MemberDef(m2, "")]);
    assert c.members + [MemberDef(m1, cur + text), MemberDef(m2, "")] == d.members;
    assert BodyFrom(st, k + 3, d, "", reg) == Done(ClassStep(ClassNode(d), reg[c.name := d], k + 4));
    assert BodyFrom(st, k + 1, c, cur + text, reg) == BodyFrom(st, k + 2, c1, "", reg);
  }

  /** The method named Construct_ is recorded like any other method, and its
      raw parameter text becomes the class's constructor parameters. */
  lemma ConstructorParamsRecorded(st: Stream, k: nat, c: ClassDef, cur: string, p: string, b: string, reg: Registry)
    requires c.ctorParams == CtorParams(c.funcs)
    requires k + 4 <= |st.items|
    requires st.items[k] == Token(Func, Constructor) && st.items[k + 1] == Token(FuncParams, p)
    requires st.items[k + 2] == Token(FuncBody, b) && st.items[k + 3].kind == RightDelim
    ensures var d := c.(funcs := c.funcs + [FuncDef(Constructor, p, b, cur)], ctorParams := p);
      BodyFrom(st, k, c, cur, reg) == Done(ClassStep(ClassNode(d), reg[c.name := d], k + 4))
  {
    var d := c.(funcs := c.funcs + [FuncDef(Constructor, p, b, cur)], ctorParams := p);
    assert FuncFrom(st, k + 1, Constructor, cur) == Done(Step(GotFunc(FuncDef(Constructor, p, b, cur)), k + 3));
    assert BodyFrom(st, k + 3, d, "", reg) == Done(ClassStep(ClassNode(d), reg[c.name := d], k + 4));
  }

  // ---------------------------------------------------------------------
  // A class cut short by the end of the stream

  /** parseClass answers "Unexpected EOF" when the EOF item comes inside a
      class, but parse does not stop there: it reads again, past the end of
      the stream, and so panics on a closed channel and hangs on a lexer that
      never sends. */
  lemma UnexpectedEofReadsOn(st: Stream, k: nat, comment: string, out: seq<Node>, reg: Registry)
    requires k < |st.items| && st.items[k].kind == Class
    requires ClassFrom(st, k + 1, st.items[k].val, comment, reg) ==
      Done(ClassStep(Stringer(UnexpectedEof), reg, |st.items|))
    ensures ParseFrom(st, k, comment, out, reg) == ReadFailure(ReadAt(st, |st.items|))
  {
  }

  /** The smallest such stream. */
  lemma OpenClassAtEnd(name: string, ext: string, e: Ending, reg: Registry)
    ensures var st := Stream([Token(Class, name), Token(Extends, ext), Token(LeftDelim, "{"), Token(EOF, "")], e);
      Parse(st, reg) == (match e
        case Closed => Panicked("Read past end of file")
        case Stalled => Diverged
        case Crashed(m) => Panicked(m))
  {
    var st := Stream([Token(Class, name), Token(Extends, ext), Token(LeftDelim, "{"), Token(EOF, "")], e);
    assert BodyFrom(st, 3, ClassDef(name, ext, "", [], [], ""), "", reg) ==
      Done(ClassStep(Stringer(UnexpectedEof), reg, 4));
    UnexpectedEofReadsOn(st, 0, "", [], reg);
  }

  // ---------------------------------------------------------------------
  // Printing

  lemma {:induction false} MethodLinesAppend(a: seq<FuncDef>, b: seq<FuncDef>)
    ensures MethodLines(a + b) == MethodLines(a) + MethodLines(b)
    decreases |b|
  {
    if b == [] {
      assert a + b == a;
    } else {
      assert (a + b)[..|a + b| - 1] == a + b[..|b| - 1];
      MethodLinesAppend(a, b[..|b| - 1]);
    }
  }

  /** The interface lists every method, the constructor included. */
  lemma InterfaceListsEveryMethod(c: ClassDef, i: nat)
    requires i < |c.funcs|
    ensures Contains(InterfaceText(c), MethodLine(c.funcs[i]))
  {
    var fs := c.funcs;
    assert fs == fs[..i] + [fs[i]] + fs[i + 1..];
    MethodLinesAppend(fs[..i] + [fs[i]], fs[i + 1..]);
    MethodLinesAppend(fs[..i], [fs[i]]);
    assert MethodLines([fs[i]]) == MethodLine(fs[i]) by {
      assert [fs[i]][..0] == [];
    }
    var head := "type " + c.name + " interface {\n" + "\t" + c.ext + "\n" + MethodLines(fs[..i]);
    var s := InterfaceText(c);
    assert s == head + MethodLine(fs[i]) + MethodLines(fs[i + 1..]) + "}\n\n";
    assert HasPrefix(s[|head|..], MethodLine(fs[i]));
    ContainsAt(s, MethodLine(fs[i]), |head|);
  }

  /** The argument list of a declaration list in parentheses, followed by
      any result text without ")", is the list of the declared names. */
  lemma ArgListOfDecls(leads: seq<string>, names: seq<string>, tails: seq<string>, result: string)
    requires |leads| == |names| == |tails| >= 1
    requires forall i :: 0 <= i < |names| ==> Params.Declares(leads[i], names[i], tails[i])
    requires ')' !in result
    ensures ArgList("(" + Join(Params.Decls(leads, names, tails), ",") + ")" + result) == Done(Join(names, ","))
  {
    ArgListAround(Join(Params.Decls(leads, names, tails), ","), result);
    Params.VarListOfDecls(leads, names, tails);
  }

  /** outNew's slice takes what lies between the first "(" and the last ")". */
  lemma ArgListAround(inner: string, result: string)
    requires ')' !in result
    ensures ArgList("(" + inner + ")" + result) == Done(Params.VarList(inner))
  {
    var params := "(" + inner + ")" + result;
    assert HasPrefix(params, "(");
    LastIndexAt("(" + inner, ')', result);
    assert params[1..|inner| + 1] == inner;
  }

  /** Parameter text without ")" makes outNew's slice panic. */
  lemma ArgListWithoutClose(params: string)
    requires ')' !in params
    ensures ArgList(params) == Panicked("runtime error: slice bounds out of range [:-1]")
  {
  }

  /** A class without constructor parameters whose parent is registered
      without them either: outNew never returns, so neither does printing the
      class. */
  lemma ParentWithoutParamsHangs(c: ClassDef, reg: Registry)
    requires c.ctorParams == "" && c.ext in reg && reg[c.ext].ctorParams == ""
    ensures ClassText(c, reg) == Diverged
  {
  }
}
