/**
  What the newer generator promises: how parse buffers comments and
  registers classes, the shape of every class it closes (receiver, parent,
  constructor and override flags), and the data the template is filled
  with (the argument list of the constructor call, the processed bodies,
  the interface's method filter).
 */
module GoppProperties {
  import opened GoStrings
  import opened Items
  import Params
  import Rewrite
  import BodyScan
  import opened Gopp

  // ---------------------------------------------------------------------
  // The registry

  /** Whatever parse returns extends the ast it started with, and the
      registry it leaves is `base` with every class of the ast registered in
      order, provided the registry it started with was. */
  lemma {:induction false} ParseFromRegisters(st: Stream, k: nat, comment: string, out: seq<NodeValue>, reg: Classes, base: Classes)
    requires reg == Registered(base, out)
    ensures var r := ParseFrom(st, k, comment, out, reg);
      r.Done? ==> out <= r.value.nodes && r.value.classes == Registered(base, r.value.nodes)
    decreases |st.items| - k
  {
    RoundRegisters(st, k, comment, out, reg, base);
    match ParseRound(st, k, comment, out, reg)
    case Next(n, comment2, out2, reg2) =>
      ParseFromRegisters(st, n, comment2, out2, reg2, base);
    case Stop(r) =>
  }

  /** The same for one round of the loop. */
  lemma RoundRegisters(st: Stream, k: nat, comment: string, out: seq<NodeValue>, reg: Classes, base: Classes)
    requires reg == Registered(base, out)
    ensures var r := ParseRound(st, k, comment, out, reg);
      (r.Next? ==> out <= r.out && r.reg == Registered(base, r.out)) &&
      (r.Stop? && r.r.Done? ==> out <= r.r.value.nodes && r.r.value.classes == Registered(base, r.r.value.nodes))
  {
    match ReadAt(st, k)
    case Got(t) =>
      match t.kind {
        case Text =>
          RegisteredSnoc(base, out, StringerValue(comment + t.val));
        case Class =>
          var cs := ClassFrom(st, k + 1, t.val, comment, reg);
          if cs.Done? {
            ClassFromRegisters(st, k + 1, t.val, comment, reg);
            RegisteredSnoc(base, out, cs.value.node);
          }
        case Error =>
          RegisteredSnoc(base, out, StringerValue("Error: " + t.val));
        case EOF =>
          if |comment| > 0 {
            RegisteredSnoc(base, out, StringerValue(comment));
          } else {
            assert out + [] == out;
          }
        case Package =>
          RegisteredSnoc(base, out, StringerValue(t.val));
        case Comment =>
        case LineComment =>
        case _ =>
          RegisteredSnoc(base, out, StringerValue("Unexpected token: " + Describe(t)));
      }
    case _ =>
  }

  /** After a whole parse the registry is the starting one with the parsed
      classes registered in the order they appear. */
  lemma ParseRegisters(st: Stream, reg: Classes)
    ensures var r := Parse(st, reg);
      r.Done? ==> r.value.classes == Registered(reg, r.value.nodes)
  {
    ParseFromRegisters(st, 0, "", [], reg, reg);
  }

  /** Last write wins: a class that no later class of the same name follows
      is the registry's entry for that name. */
  lemma {:induction false} LastWriteWins(reg: Classes, nodes: seq<NodeValue>, i: nat)
    requires i < |nodes| && nodes[i].ClassValue?
    requires forall j :: i < j < |nodes| ==> !(nodes[j].ClassValue? && nodes[j].d.name == nodes[i].d.name)
    ensures var r := Registered(reg, nodes);
      nodes[i].d.name in r && r[nodes[i].d.name] == nodes[i].d
    decreases |nodes|
  {
    if i < |nodes| - 1 {
      LastWriteWins(reg, nodes[..|nodes| - 1], i);
    }
  }

  /** A name that no class in `nodes` carries keeps its earlier entry, or its
      absence. */
  lemma {:induction false} OtherNamesKept(reg: Classes, nodes: seq<NodeValue>, name: string)
    requires forall j :: 0 <= j < |nodes| ==> !(nodes[j].ClassValue? && nodes[j].d.name == name)
    ensures var r := Registered(reg, nodes);
      (name in r <==> name in reg) && (name in reg ==> r[name] == reg[name])
    decreases |nodes|
  {
    if nodes != [] {
      OtherNamesKept(reg, nodes[..|nodes| - 1], name);
    }
  }

  // ---------------------------------------------------------------------
  // Comment buffering at the top level

  /** Pending comments are glued to the front of the next text. */
  lemma CommentJoinsText(c: string, s: string, e: Ending, reg: Classes)
    ensures Parse(Stream([Token(Comment, c), Token(Text, s), Token(EOF, "")], e), reg) ==
      Done(Parsed([StringerValue(c + s)], reg, 3))
  {
    var st := Stream([Token(Comment, c), Token(Text, s), Token(EOF, "")], e);
    assert "" + c == c;
    assert [] + [StringerValue(c + s)] == [StringerValue(c + s)];
    assert [StringerValue(c + s)] + [] == [StringerValue(c + s)];
    assert ParseFrom(st, 2, "", [StringerValue(c + s)], reg) == Done(Parsed([StringerValue(c + s)], reg, 3));
    assert ParseFrom(st, 1, c, [], reg) == ParseFrom(st, 2, "", [StringerValue(c + s)], reg);
  }

  /** A package line is emitted at once and does not take the pending
      comment, which is flushed at the end of the stream. */
  lemma PackageLeavesComment(c: string, p: string, e: Ending, reg: Classes)
    requires c != ""
    ensures Parse(Stream([Token(Comment, c), Token(Package, p), Token(EOF, "")], e), reg) ==
      Done(Parsed([StringerValue(p), StringerValue(c)], reg, 3))
  {
    var st := Stream([Token(Comment, c), Token(Package, p), Token(EOF, "")], e);
    assert ReadAt(st, 1) == Got(Token(Package, p));
    assert ReadAt(st, 2) == Got(Token(EOF, ""));
    assert "" + c == c;
    assert [] + [StringerValue(p)] == [StringerValue(p)];
    assert [StringerValue(p)] + [StringerValue(c)] == [StringerValue(p), StringerValue(c)];
    assert ParseFrom(st, 2, c, [StringerValue(p)], reg) == Done(Parsed([StringerValue(p), StringerValue(c)], reg, 3));
    assert ParseFrom(st, 1, c, [], reg) == ParseFrom(st, 2, c, [StringerValue(p)], reg);
  }

  /** An error item ends the parse: the pending comment is lost and nothing
      after the error is read. */
  lemma ErrorDropsComment(c: string, m: string, rest: seq<Token>, e: Ending, reg: Classes)
    ensures Parse(Stream([Token(Comment, c), Token(Error, m)] + rest, e), reg) ==
      Done(Parsed([StringerValue("Error: " + m)], reg, 2))
  {
    var st := Stream([Token(Comment, c), Token(Error, m)] + rest, e);
    assert ReadAt(st, 0) == Got(Token(Comment, c));
    assert ReadAt(st, 1) == Got(Token(Error, m));
    assert [] + [StringerValue("Error: " + m)] == [StringerValue("Error: " + m)];
    assert "" + c == c;
    assert ParseFrom(st, 1, c, [], reg) == Done(Parsed([StringerValue("Error: " + m)], reg, 2));
    assert ParseFrom(st, 0, "", [], reg) == ParseFrom(st, 1, "" + c, [], reg);
  }

  /** The receiver is computed from the name's first byte before anything
      else is read, so a class without a name takes the program down
      whatever follows it. */
  lemma EmptyClassNamePanics(comment: string, rest: seq<Token>, e: Ending, reg: Classes)
    ensures ParseFrom(Stream([Token(Class, "")] + rest, e), 0, comment, [], reg) == Panicked(EmptyNameIndex)
  {
    var st := Stream([Token(Class, "")] + rest, e);
    assert ReadAt(st, 0) == Got(Token(Class, ""));
  }

  // ---------------------------------------------------------------------
  // The shape of a closed class

  /** The constructor parameters parseClass keeps: those of the last method
      named Construct, with the parentheses and blanks at both ends cut
      off, or none. */
  function CtorParamsOf(fs: seq<FuncDef>): string
    decreases |fs|
  {
    if fs == [] then ""
    else if fs[|fs| - 1].name == Constructor then Trim(fs[|fs| - 1].params, ParenCut)
    else CtorParamsOf(fs[..|fs| - 1])
  }

  /** What holds of a class while its body is read: the receiver belongs to
      the name, the constructor parameters come from the last Construct,
      every Construct is an override, and nothing printing fills in is set
      yet. */
  predicate Shaped(c: ClassDef) {
    Receiver(c.name) == Done(c.receiver) && c.parentVarList == "" &&
    c.ctorParams == CtorParamsOf(c.funcs) && ConstructsOverride(c.funcs) &&
    (forall i :: 0 <= i < |c.funcs| ==> c.funcs[i].processedBody == "")
  }

  /** Recording a method keeps the shape. */
  lemma FuncAdded(c: ClassDef, f: FuncDef, isOverride: bool)
    requires Shaped(c) && f.processedBody == ""
    ensures Shaped(WithFunc(c, f, isOverride))
  {
    var c2 := WithFunc(c, f, isOverride);
    assert c2.funcs[..|c2.funcs| - 1] == c.funcs;
  }

  /** The class body loop keeps the shape and the name, parent and comment,
      and only appends members and methods; the closing delimiter sets the
      parent's plain name. */
  lemma BodyFromCloses(st: Stream, k: nat, c: ClassDef, cur: string, isOverride: bool, reg: Classes)
    requires Shaped(c)
    ensures var r := BodyFrom(st, k, c, cur, isOverride, reg);
      r.Done? && r.value.node.ClassValue? ==>
        var d := r.value.node.d;
        Shaped(d) && d.name == c.name && d.ext == c.ext && d.comment == c.comment &&
        d.parent == Rewrite.ParentName(c.ext) && c.members <= d.members && c.funcs <= d.funcs
  {
    var inv := (x: ClassDef) =>
      Shaped(x) && x.name == c.name && x.ext == c.ext && x.comment == c.comment &&
      c.members <= x.members && c.funcs <= x.funcs;
    forall x: ClassDef, m: MemberDef | inv(x)
      ensures inv(x.(members := x.members + [m]))
    {
      assert x.members <= x.members + [m];
    }
    forall x: ClassDef, f: FuncDef, o: bool | inv(x) && f.processedBody == "" && !f.isOverride
      ensures inv(WithFunc(x, f, o))
    {
      FuncAdded(x, f, o);
      assert x.funcs <= WithFunc(x, f, o).funcs;
    }
    var last := BodyFromInduct(inv, st, k, c, cur, isOverride, reg);
  }

  /** Every class parseClass closes has the receiver of its name, extends
      what the extends item names, has the plain name of that as parent,
      carries the comment that came before it, and has the shape above. */
  lemma ClassFromCloses(st: Stream, k: nat, name: string, comment: string, reg: Classes)
    ensures var r := ClassFrom(st, k, name, comment, reg);
      r.Done? && r.value.node.ClassValue? ==>
        var d := r.value.node.d;
        k < |st.items| && d.ext == st.items[k].val &&
        Shaped(d) && d.name == name && d.comment == comment && d.parent == Rewrite.ParentName(d.ext)
  {
    if name != [] && ReadAt(st, k).Got? && ReadAt(st, k + 1).Got? {
      var recv := Receiver(name).value;
      BodyFromCloses(st, k + 2, ClassDef(name, ReadAt(st, k).t.val, "", [], [], comment, "", recv, ""), "", false, reg);
    }
  }

  /** A class in the ast as parseClass closed it. */
  predicate ClassShaped(v: NodeValue) {
    v.ClassValue? ==> Shaped(v.d) && v.d.parent == Rewrite.ParentName(v.d.ext)
  }

  /** Every class in the ast parse returns was closed by parseClass, so has
      the shape above. */
  lemma {:induction false} ParseFromShapes(st: Stream, k: nat, comment: string, out: seq<NodeValue>, reg: Classes)
    requires forall i :: 0 <= i < |out| ==> ClassShaped(out[i])
    ensures var r := ParseFrom(st, k, comment, out, reg);
      r.Done? ==> forall i :: 0 <= i < |r.value.nodes| ==> ClassShaped(r.value.nodes[i])
    decreases |st.items| - k
  {
    RoundShapes(st, k, comment, out, reg);
    match ParseRound(st, k, comment, out, reg)
    case Next(n, comment2, out2, reg2) =>
      ParseFromShapes(st, n, comment2, out2, reg2);
    case Stop(r) =>
  }

  /** Every class in the ast a round hands on is shaped. */
  predicate TurnShaped(r: Turn) {
    (r.Next? ==> forall i :: 0 <= i < |r.out| ==> ClassShaped(r.out[i])) &&
    (r.Stop? && r.r.Done? ==> forall i :: 0 <= i < |r.r.value.nodes| ==> ClassShaped(r.r.value.nodes[i]))
  }

  /** The same for one round of the loop. */
  lemma RoundShapes(st: Stream, k: nat, comment: string, out: seq<NodeValue>, reg: Classes)
    requires forall i :: 0 <= i < |out| ==> ClassShaped(out[i])
    ensures TurnShaped(ParseRound(st, k, comment, out, reg))
  {
    match ReadAt(st, k)
    case Got(t) =>
      if t.kind == Class {
        ClassRoundShapes(st, k, t, comment, out, reg);
      }
    case _ =>
  }

  /** RoundShapes when the round reads a class item. */
  lemma ClassRoundShapes(st: Stream, k: nat, t: Token, comment: string, out: seq<NodeValue>, reg: Classes)
    requires ReadAt(st, k) == Got(t) && t.kind == Class
    requires forall i :: 0 <= i < |out| ==> ClassShaped(out[i])
    ensures TurnShaped(ParseRound(st, k, comment, out, reg))
  {
    var cs := ClassFrom(st, k + 1, t.val, comment, reg);
    if cs.Done? {
      ClassFromCloses(st, k + 1, t.val, comment, reg);
      assert ClassShaped(cs.value.node);
    }
  }

  // ---------------------------------------------------------------------
  // Inside a class body

  /** A comment item: the class body loop adds it to the comment buffer. */
  lemma CommentRound(st: Stream, k: nat, c: ClassDef, cur: string, ov: bool, reg: Classes)
    requires k < |st.items| && st.items[k].kind == Comment
    ensures BodyFrom(st, k, c, cur, ov, reg) == BodyFrom(st, k + 1, c, cur + st.items[k].val, ov, reg)
  {
    assert BodyRound(st, k, c, cur, ov, reg) == Continue(k + 1, Keep, cur + st.items[k].val, ov);
  }

  /** A member item: the member gets the buffered comments, which are
      cleared. */
  lemma MemberRound(st: Stream, k: nat, c: ClassDef, cur: string, ov: bool, reg: Classes)
    requires k < |st.items| && st.items[k].kind == Member
    ensures BodyFrom(st, k, c, cur, ov, reg) ==
      BodyFrom(st, k + 1, c.(members := c.members + [MemberDef(st.items[k].val, cur)]), "", ov, reg)
  {
    assert BodyRound(st, k, c, cur, ov, reg) == Continue(k + 1, AddMember(MemberDef(st.items[k].val, cur)), "", ov);
  }

  /** An override item sets the flag for what follows. */
  lemma OverrideRound(st: Stream, k: nat, c: ClassDef, cur: string, ov: bool, reg: Classes)
    requires k < |st.items| && st.items[k].kind == Override
    ensures BodyFrom(st, k, c, cur, ov, reg) == BodyFrom(st, k + 1, c, cur, true, reg)
  {
    assert BodyRound(st, k, c, cur, ov, reg) == Continue(k + 1, Keep, cur, true);
  }

  /** A method: its name, parameters and body items become a method with the
      buffered comments, recorded with the override flag, which is reset. */
  lemma FuncRound(st: Stream, k: nat, c: ClassDef, cur: string, ov: bool, reg: Classes, name: string, p: string, b: string)
    requires k + 3 <= |st.items|
    requires st.items[k] == Token(Func, name) && st.items[k + 1] == Token(FuncParams, p) && st.items[k + 2] == Token(FuncBody, b)
    ensures BodyFrom(st, k, c, cur, ov, reg) ==
      BodyFrom(st, k + 3, WithFunc(c, FuncDef(name, p, b, "", cur, false), ov), "", false, reg)
  {
    var f := FuncDef(name, p, b, "", cur, false);
    assert FuncFrom(st, k + 1, name, cur) == Done(Step(GotFunc(f), k + 3));
    assert BodyRound(st, k, c, cur, ov, reg) == Continue(k + 3, AddFunc(f, ov), "", false);
  }

  /** The closing delimiter: the class is done and registered. */
  lemma CloseRound(st: Stream, k: nat, c: ClassDef, cur: string, ov: bool, reg: Classes)
    requires k < |st.items| && st.items[k].kind == RightDelim
    ensures BodyFrom(st, k, c, cur, ov, reg) ==
      Done(ClassStep(ClassValue(WithParent(c)), reg[c.name := WithParent(c)], k + 1))
  {
    assert BodyRound(st, k, c, cur, ov, reg) == Return(Done(ClassStep(ClassValue(WithParent(c)), reg[c.name := WithParent(c)], k + 1)));
  }

  /** The comments read since the last member or method go with the next
      member, and the next member after that starts with none. */
  lemma MemberTakesComments(st: Stream, k: nat, c: ClassDef, cur: string, text: string, m1: string, m2: string, ov: bool, reg: Classes)
    requires k + 4 <= |st.items|
    requires st.items[k] == Token(Comment, text) && st.items[k + 1] == Token(Member, m1)
    requires st.items[k + 2] == Token(Member, m2) && st.items[k + 3].kind == RightDelim
    ensures var d := WithParent(c.(members := c.members + [MemberDef(m1, cur + text), MemberDef(m2, "")]));
      BodyFrom(st, k, c, cur, ov, reg) == Done(ClassStep(ClassValue(d), reg[c.name := d], k + 4))
  {
    var c1 := c.(members := c.members + [MemberDef(m1, cur + text)]);
    var c2 := c1.(members := c1.members + [MemberDef(m2, "")]);
    assert c.members + [MemberDef(m1, cur + text), MemberDef(m2, "")] == c2.members;
    CommentRound(st, k, c, cur, ov, reg);
    MemberRound(st, k + 1, c, cur + text, ov, reg);
    MemberRound(st, k + 2, c1, "", ov, reg);
    CloseRound(st, k + 3, c2, "", ov, reg);
  }

  /** An override item marks the next method only. */
  lemma OverrideMarksNextOnly(st: Stream, k: nat, c: ClassDef, cur: string, a1: string, p1: string, b1: string,
                              a2: string, p2: string, b2: string, reg: Classes)
    requires a1 != Constructor && a2 != Constructor
    requires k + 8 <= |st.items|
    requires st.items[k].kind == Override && st.items[k + 1] == Token(Func, a1)
    requires st.items[k + 2] == Token(FuncParams, p1) && st.items[k + 3] == Token(FuncBody, b1)
    requires st.items[k + 4] == Token(Func, a2)
    requires st.items[k + 5] == Token(FuncParams, p2) && st.items[k + 6] == Token(FuncBody, b2)
    requires st.items[k + 7].kind == RightDelim
    ensures var d := WithParent(c.(funcs := c.funcs + [FuncDef(a1, p1, b1, "", cur, true), FuncDef(a2, p2, b2, "", "", false)]));
      BodyFrom(st, k, c, cur, false, reg) == Done(ClassStep(ClassValue(d), reg[c.name := d], k + 8))
  {
    var c1 := WithFunc(c, FuncDef(a1, p1, b1, "", cur, false), true);
    var c2 := WithFunc(c1, FuncDef(a2, p2, b2, "", "", false), false);
    assert c2 == c.(funcs := c.funcs + [FuncDef(a1, p1, b1, "", cur, true), FuncDef(a2, p2, b2, "", "", false)]);
    OverrideRound(st, k, c, cur, false, reg);
    FuncRound(st, k + 1, c, cur, true, reg, a1, p1, b1);
    FuncRound(st, k + 4, c1, "", false, reg, a2, p2, b2);
    CloseRound(st, k + 7, c2, "", false, reg);
  }

  /** The method named Construct is always an override, and its parameter
      text without the parentheses becomes the constructor's parameters. */
  lemma ConstructRecorded(st: Stream, k: nat, c: ClassDef, cur: string, ov: bool, p: string, b: string, reg: Classes)
    requires k + 4 <= |st.items|
    requires st.items[k] == Token(Func, Constructor) && st.items[k + 1] == Token(FuncParams, p)
    requires st.items[k + 2] == Token(FuncBody, b) && st.items[k + 3].kind == RightDelim
    ensures var d := WithParent(c.(funcs := c.funcs + [FuncDef(Constructor, p, b, "", cur, true)], ctorParams := Trim(p, ParenCut)));
      BodyFrom(st, k, c, cur, ov, reg) == Done(ClassStep(ClassValue(d), reg[c.name := d], k + 4))
  {
    var c1 := WithFunc(c, FuncDef(Constructor, p, b, "", cur, false), ov);
    assert c1 == c.(funcs := c.funcs + [FuncDef(Constructor, p, b, "", cur, true)], ctorParams := Trim(p, ParenCut));
    FuncRound(st, k, c, cur, ov, reg, Constructor, p, b);
    CloseRound(st, k + 3, c1, "", false, reg);
  }

  /** The argument list of the constructor call: for Construct's parameter
      text "(a int, b string)" the parentheses go and the declared names
      remain, "a,b". */
  lemma ConstructArgList(leads: seq<string>, names: seq<string>, tails: seq<string>)
    requires |leads| == |names| == |tails| >= 1
    requires forall i :: 0 <= i < |names| ==> Params.Declares(leads[i], names[i], tails[i])
    requires var decls := Join(Params.Decls(leads, names, tails), ",");
      decls != [] && decls[0] !in ParenCut && decls[|decls| - 1] !in ParenCut
    ensures Params.VarList(Trim("(" + Join(Params.Decls(leads, names, tails), ",") + ")", ParenCut)) == Join(names, ",")
  {
    var decls := Join(Params.Decls(leads, names, tails), ",");
    TrimAround("(", decls, ")", ParenCut);
    Params.VarListOfDecls(leads, names, tails);
  }
}
