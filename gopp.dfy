/**
  The newer code generator (gopp/parser.go): the same parse as the older one
  with override markers, a receiver and a parent name per class, and a
  constructor named Construct whose parameter text is stripped of its
  parentheses.  A parsed class is an object: the ast and the global registry
  share it, and printing it fills in the parameter-name list and the
  processed method bodies that the text template reads.

  The functions `FuncFrom`, `ClassFrom`, `BodyFrom` and `ParseFrom` state
  what the parsing loops compute, on values; the class `Parser` runs the
  loops and allocates one `ClassObj` per class that closes.
 */
module Gopp {
  import opened GoStrings
  import opened Items
  import Params
  import Rewrite
  import BodyScan

  datatype MemberDef = MemberDef(name: string, comment: string)

  /** funcDef; `processedBody` is filled in when the class is printed. */
  datatype FuncDef = FuncDef(
    name: string, params: string, body: string, processedBody: string,
    comment: string, isOverride: bool)

  /** The fields of a classDef, as a value. */
  datatype ClassDef = ClassDef(
    name: string, ext: string, ctorParams: string,
    members: seq<MemberDef>, funcs: seq<FuncDef>, comment: string,
    parentVarList: string, receiver: string, parent: string)

  /** The constructor's name in the newer generator. */
  const Constructor := "Construct"
  const UnexpectedEof := "Unexpected EOF"

  /** The cut set strings.Trim uses on the constructor's parameters. */
  const ParenCut: set<char> := {'(', ')', ' '}

  /** The cut set strings.Trim uses on a processed body. */
  const BraceCut: set<char> := {'{', '}', ' '}

  /** The runtime error of indexing the first byte of an empty name. */
  const EmptyNameIndex := "runtime error: index out of range [0] with length 0"

  /** The receiver: the class name's first character in lower case, then
      "_".  The name's first byte is read without a check. */
  function Receiver(name: string): (r: Outcome<string>)
    ensures r.Panicked? <==> name == []
    ensures r.Done? ==> |r.value| == 2 && r.value[1] == '_' && !('A' <= r.value[0] <= 'Z')
    ensures r.Done? && !('A' <= name[0] <= 'Z') ==> r.value[0] == name[0]
  {
    if name == [] then Panicked(EmptyNameIndex) else Done([ToLower(name[0])] + "_")
  }

  /** Every method named Construct is marked as an override. */
  predicate ConstructsOverride(funcs: seq<FuncDef>) {
    forall i :: 0 <= i < |funcs| && funcs[i].name == Constructor ==> funcs[i].isOverride
  }

  // ---------------------------------------------------------------------
  // What the parsing loops compute, on values

  /** The registry's contents. */
  type Classes = map<string, ClassDef>

  /** An element of the ast, with a class given by its fields. */
  datatype NodeValue = StringerValue(s: string) | ClassValue(d: ClassDef)

  datatype Step<T> = Step(value: T, next: nat)
  datatype FuncRead = GotFunc(f: FuncDef) | FuncError(msg: string)
  datatype ClassStep = ClassStep(node: NodeValue, classes: Classes, next: nat)
  datatype Parsed = Parsed(nodes: seq<NodeValue>, classes: Classes, next: nat)

  /** The registry after registering the classes among `nodes`, in order. */
  function Registered(reg: Classes, nodes: seq<NodeValue>): Classes
    decreases |nodes|
  {
    if nodes == [] then reg
    else
      var before := Registered(reg, nodes[..|nodes| - 1]);
      match nodes[|nodes| - 1]
      case ClassValue(d) => before[d.name := d]
      case StringerValue(_) => before
  }

  lemma RegisteredSnoc(reg: Classes, nodes: seq<NodeValue>, n: NodeValue)
    ensures Registered(reg, nodes + [n]) ==
      match n
      case ClassValue(d) => Registered(reg, nodes)[d.name := d]
      case StringerValue(_) => Registered(reg, nodes)
  {
    assert (nodes + [n])[..|nodes|] == nodes;
  }

  /** parseFunc: a parameters item, then a body item. */
  function FuncFrom(st: Stream, k: nat, name: string, comment: string): (r: Outcome<Step<FuncRead>>)
    ensures r.Done? ==> k < r.value.next <= |st.items|
    ensures r.Done? && r.value.value.GotFunc? ==>
      var f := r.value.value.f;
      f.name == name && f.comment == comment && f.processedBody == "" && !f.isOverride
  {
    match ReadAt(st, k)
    case Got(p) =>
      if p.kind != FuncParams then
        Done(Step(FuncError("Error: function parameters expected, got " + Describe(p)), k + 1))
      else
        (match ReadAt(st, k + 1)
         case Got(b) =>
           if b.kind != FuncBody then
             Done(Step(FuncError("Error: function body expected, got " + Describe(b)), k + 2))
           else Done(Step(GotFunc(FuncDef(name, p.val, b.val, "", comment, false)), k + 2))
         case r => ReadFailure(r))
    case r => ReadFailure(r)
  }

  /** A method as the class body records it: marked as an override when an
      override item came before it; Construct always is one. */
  function Recorded(f: FuncDef, isOverride: bool): (g: FuncDef)
    ensures g.(isOverride := f.isOverride) == f
    ensures g.isOverride <==> isOverride || f.name == Constructor
  {
    f.(isOverride := isOverride || f.name == Constructor)
  }

  /** The class after the body loop records method `f`: a method named
      Construct also gives the constructor parameters, without the
      parentheses. */
  function WithFunc(c: ClassDef, f: FuncDef, isOverride: bool): ClassDef {
    var params := if f.name == Constructor then Trim(f.params, ParenCut) else c.ctorParams;
    c.(funcs := c.funcs + [Recorded(f, isOverride)], ctorParams := params)
  }

  /** The class as the closing delimiter leaves it: the parent is the
      plain name of what it extends. */
  function WithParent(c: ClassDef): ClassDef {
    c.(parent := Rewrite.ParentName(c.ext))
  }

  /** What one round of the class body loop does to the class. */
  datatype Edit = Keep | AddMember(m: MemberDef) | AddFunc(f: FuncDef, isOverride: bool)

  function Apply(c: ClassDef, e: Edit): ClassDef {
    match e
    case Keep => c
    case AddMember(m) => c.(members := c.members + [m])
    case AddFunc(f, o) => WithFunc(c, f, o)
  }

  /** How one round of the class body loop ends: it goes on at item `next`
      with the class edited, the comments since the last member or method,
      and whether an override item is pending; or parseClass returns. */
  datatype Round = Continue(next: nat, edit: Edit, cur: string, isOverride: bool) | Return(r: Outcome<ClassStep>)

  /** One round of the class body loop of parseClass.  Closing the class
      registers it under its name; an error leaves the registry alone. */
  function BodyRound(st: Stream, k: nat, c: ClassDef, cur: string, isOverride: bool, reg: Classes): (r: Round)
    ensures r.Continue? ==> k < r.next <= |st.items|
    ensures r.Continue? && r.edit.AddFunc? ==> r.edit.f.processedBody == "" && !r.edit.f.isOverride
    ensures r.Return? && r.r.Done? ==>
      var s := r.r.value;
      k < s.next <= |st.items| &&
      ((s.node.StringerValue? && s.classes == reg) ||
       (s.node == ClassValue(WithParent(c)) && s.classes == reg[c.name := WithParent(c)]))
  {
    match ReadAt(st, k)
    case Got(t) =>
      (match t.kind
       case EOF => Return(Done(ClassStep(StringerValue(UnexpectedEof), reg, k + 1)))
       case Comment => Continue(k + 1, Keep, cur + t.val, isOverride)
       case LineComment => Continue(k + 1, Keep, cur + t.val, isOverride)
       case Member => Continue(k + 1, AddMember(MemberDef(t.val, cur)), "", isOverride)
       case Override => Continue(k + 1, Keep, cur, true)
       case Func =>
         (match FuncFrom(st, k + 1, t.val, cur)
          case Done(Step(GotFunc(f), n)) => Continue(n, AddFunc(f, isOverride), "", false)
          case Done(Step(FuncError(e), n)) => Return(Done(ClassStep(StringerValue(e), reg, n)))
          case Panicked(m) => Return(Panicked(m))
          case Diverged => Return(Diverged))
       case RightDelim =>
         var d := WithParent(c);
         Return(Done(ClassStep(ClassValue(d), reg[d.name := d], k + 1)))
       case _ => Continue(k + 1, Keep, cur, isOverride))
    case r => Return(ReadFailure(r))
  }

  /** The class body loop of parseClass: the class so far, the comments since
      the last member or method, and whether an override item is pending. */
  function BodyFrom(st: Stream, k: nat, c: ClassDef, cur: string, isOverride: bool, reg: Classes): (r: Outcome<ClassStep>)
    ensures r.Done? ==> k < r.value.next <= |st.items|
    decreases |st.items| - k
  {
    match BodyRound(st, k, c, cur, isOverride, reg)
    case Continue(n, e, cur2, o) => BodyFrom(st, n, Apply(c, e), cur2, o, reg)
    case Return(r) => r
  }

  /** parseClass, from the item after the class keyword.  The receiver is
      computed before anything is read, so an empty name panics at once. */
  function ClassFrom(st: Stream, k: nat, name: string, comment: string, reg: Classes): (r: Outcome<ClassStep>)
    ensures name == [] ==> r == Panicked(EmptyNameIndex)
    ensures r.Done? ==> k < r.value.next <= |st.items|
  {
    if name == [] then Panicked(EmptyNameIndex)
    else
      var recv := Receiver(name).value;
      match ReadAt(st, k)
       case Got(t) =>
         if t.kind == EOF then Done(ClassStep(StringerValue(UnexpectedEof), reg, k + 1))
         else if t.kind != Extends then
           Done(ClassStep(StringerValue("Error: Extends keyword expected, got " + Describe(t)), reg, k + 1))
         else
           (match ReadAt(st, k + 1)
            case Got(d) =>
              if d.kind == EOF then Done(ClassStep(StringerValue(UnexpectedEof), reg, k + 2))
              else if d.kind != LeftDelim then
                Done(ClassStep(StringerValue("Error: left delimiter expected, got " + Describe(d)), reg, k + 2))
              else BodyFrom(st, k + 2, ClassDef(name, t.val, "", [], [], comment, "", recv, ""), "", false, reg)
            case r => ReadFailure(r))
      case r => ReadFailure(r)
  }

  /** How one round of parse's loop ends: it goes on at item `next` with
      the pending comments, the ast and the registry, or parse returns. */
  datatype Turn = Next(next: nat, comment: string, out: seq<NodeValue>, reg: Classes) | Stop(r: Outcome<Parsed>)

  /** One round of the loop of parse. */
  function ParseRound(st: Stream, k: nat, comment: string, out: seq<NodeValue>, reg: Classes): (r: Turn)
    ensures r.Next? ==> k < r.next <= |st.items|
    ensures r.Stop? && r.r.Done? ==> k < r.r.value.next <= |st.items|
  {
    match ReadAt(st, k)
    case Got(t) =>
      (match t.kind
       case Text => Next(k + 1, "", out + [StringerValue(comment + t.val)], reg)
       case Class =>
         (match ClassFrom(st, k + 1, t.val, comment, reg)
          case Done(cs) => Next(cs.next, "", out + [cs.node], cs.classes)
          case Panicked(m) => Stop(Panicked(m))
          case Diverged => Stop(Diverged))
       case Error => Stop(Done(Parsed(out + [StringerValue("Error: " + t.val)], reg, k + 1)))
       case Comment => Next(k + 1, comment + t.val, out, reg)
       case LineComment => Next(k + 1, comment + t.val, out, reg)
       case EOF => Stop(Done(Parsed(out + (if |comment| > 0 then [StringerValue(comment)] else []), reg, k + 1)))
       case Package => Next(k + 1, comment, out + [StringerValue(t.val)], reg)
       case _ => Stop(Done(Parsed(out + [StringerValue("Unexpected token: " + Describe(t))], reg, k + 1))))
    case r => Stop(ReadFailure(r))
  }

  /** The loop of parse, with the ast so far and the pending comments. */
  function ParseFrom(st: Stream, k: nat, comment: string, out: seq<NodeValue>, reg: Classes): (r: Outcome<Parsed>)
    ensures r.Done? ==> k < r.value.next <= |st.items|
    decreases |st.items| - k
  {
    match ParseRound(st, k, comment, out, reg)
    case Next(n, comment2, out2, reg2) => ParseFrom(st, n, comment2, out2, reg2)
    case Stop(r) => r
  }

  /** parse over a whole stream, with the registry's earlier contents. */
  function Parse(st: Stream, reg: Classes): (r: Outcome<Parsed>)
    ensures r.Done? ==> 0 < r.value.next <= |st.items|
  {
    ParseFrom(st, 0, "", [], reg)
  }

  // ---------------------------------------------------------------------
  // Classes as objects, and the parser

  /** A classDef in memory.  parseClass fills in a local classDef and hands
      out its address, which both the ast and the registry keep; printing
      updates it in place. */
  class ClassObj {
    var name: string
    var ext: string
    var ctorParams: string
    var members: seq<MemberDef>
    var funcs: seq<FuncDef>
    var comment: string
    var parentVarList: string
    var receiver: string
    var parent: string

    function State(): ClassDef
      reads this
    {
      ClassDef(name, ext, ctorParams, members, funcs, comment, parentVarList, receiver, parent)
    }

    constructor (d: ClassDef)
      ensures State() == d
    {
      name := d.name;
      ext := d.ext;
      ctorParams := d.ctorParams;
      members := d.members;
      funcs := d.funcs;
      comment := d.comment;
      parentVarList := d.parentVarList;
      receiver := d.receiver;
      parent := d.parent;
    }

    /** The first part of classDef.String: fills in the argument list of the
        constructor call, then processes the bodies in place, in order.  When
        a body panics, the methods before it keep their processed bodies. */
    method Prepare() returns (r: Outcome<ClassDef>)
      modifies this
      ensures r == Prepared(old(State()))
      ensures State() == AfterPrepare(old(State()))
    {
      parentVarList := Params.CollectVarList(ctorParams);
      var o := ProcessBodies(ConvertFor(receiver, name, ext));
      if !o.Done? {
        return Propagate(o);
      }
      r := Done(State());
    }

    /** The loop of classDef.String over the methods, with `convert` as
        convertBody: each processed body is written back into its method as
        soon as it is computed. */
    method ProcessBodies(convert: string -> string) returns (o: Outcome<seq<FuncDef>>)
      modifies this
      ensures o == FuncsOut(old(funcs), convert)
      ensures State() == old(State()).(funcs := FuncsAfter(old(funcs), convert))
    {
      var fs := funcs;
      ghost var done: seq<FuncDef> := [];
      for i := 0 to |fs|
        invariant FuncsOut(fs[..i], convert) == Done(done) && |done| == i
        invariant funcs == done + fs[i..]
        invariant State() == old(State()).(funcs := funcs)
      {
        FuncsOutStep(fs, i, convert, done);
        assert funcs[i] == fs[i];
        var body := ProcessFuncBody(funcs[i].body, convert);
        if !body.Done? {
          FuncsAfterPanic(fs, i, convert);
          FuncsOutFails(fs, i + 1, convert);
          assert funcs == FuncsAfter(fs, convert);
          return Propagate(body);
        }
        var f := fs[i].(processedBody := body.value);
        WriteBack(done, fs, i, f);
        funcs := funcs[i := f];
        done := done + [f];
      }
      assert fs[..|fs|] == fs;
      assert funcs == FuncsAfter(fs, convert);
      return Done(funcs);
    }

    /** classDef.String: prepares the class, then renders the template. */
    method String() returns (o: Outcome<string>)
      modifies this
      ensures o == Printed(old(State()))
      ensures State() == AfterPrepare(old(State()))
    {
      var r := Prepare();
      if !r.Done? {
        return Propagate(r);
      }
      o := Done(Template(State()));
    }
  }

  /** The global `classes` map. */
  type Registry = map<string, ClassObj>

  /** An element of the ast: literal text, or a class object. */
  datatype Node = Stringer(s: string) | ClassNode(c: ClassObj)

  /** The objects an ast refers to. */
  function Objects(nodes: seq<Node>): set<ClassObj> {
    set i | 0 <= i < |nodes| && nodes[i].ClassNode? :: nodes[i].c
  }

  function ObjectOf(n: Node): set<ClassObj> {
    if n.ClassNode? then {n.c} else {}
  }

  ghost function ValueOf(n: Node): NodeValue
    reads ObjectOf(n)
  {
    match n
    case Stringer(s) => StringerValue(s)
    case ClassNode(c) => ClassValue(c.State())
  }

  /** The ast with each class object replaced by its fields. */
  ghost function Values(nodes: seq<Node>): (r: seq<NodeValue>)
    reads Objects(nodes)
    ensures |r| == |nodes|
  {
    seq(|nodes|, i requires 0 <= i < |nodes| reads Objects(nodes) => ValueOf(nodes[i]))
  }

  /** The registry with each class object replaced by its fields. */
  ghost function Contents(reg: Registry): Classes
    reads reg.Values
  {
    map n | n in reg :: reg[n].State()
  }

  /** The parser over the lexer: its cursor and the global registry. */
  class Parser {
    const stream: Stream
    var next: nat
    var classes: Registry

    ghost predicate Valid()
      reads this
    {
      next <= |stream.items|
    }

    constructor (st: Stream, reg: Registry)
      ensures stream == st && next == 0 && classes == reg && Valid()
    {
      stream := st;
      next := 0;
      classes := reg;
    }

    /** lexer.nextItem */
    method NextItem() returns (r: Read)
      requires Valid()
      modifies this
      ensures Valid() && classes == old(classes)
      ensures r == ReadAt(stream, old(next))
      ensures next == if r.Got? then old(next) + 1 else old(next)
    {
      r := ReadAt(stream, next);
      if r.Got? {
        next := next + 1;
      }
    }

    /** parseFunc */
    method ParseFunc(name: string, comment: string) returns (o: Outcome<FuncRead>)
      requires Valid()
      modifies this
      ensures Valid() && classes == old(classes)
      ensures var r := FuncFrom(stream, old(next), name, comment);
        SameFailure(o, r) && (r.Done? ==> o.value == r.value.value && next == r.value.next)
    {
      var params := NextItem();
      if !params.Got? {
        return ReadFailure(params);
      }
      if params.t.kind != FuncParams {
        return Done(FuncError("Error: function parameters expected, got " + Describe(params.t)));
      }
      var body := NextItem();
      if !body.Got? {
        return ReadFailure(body);
      }
      if body.t.kind != FuncBody {
        return Done(FuncError("Error: function body expected, got " + Describe(body.t)));
      }
      return Done(GotFunc(FuncDef(name, params.t.val, body.t.val, "", comment, false)));
    }

    /** parseClass: the class keyword has been read; `name` is its text.  A
        class that closes becomes a new object, registered under its name. */
    method ParseClass(name: string, comment: string) returns (o: Outcome<Node>)
      requires Valid()
      modifies this
      ensures Valid()
      ensures var r := ClassFrom(stream, old(next), name, comment, old(Contents(classes)));
        SameFailure(o, r) &&
        (r.Done? ==>
          next == r.value.next && ValueOf(o.value) == r.value.node &&
          Contents(classes) == r.value.classes &&
          (o.value.Stringer? ==> classes == old(classes)) &&
          (o.value.ClassNode? ==> fresh(o.value.c) && o.value.c.name == name && classes == old(classes)[name := o.value.c]))
    {
      ghost var reg := Contents(classes);
      ClassFromRegisters(stream, next, name, comment, reg);
      var v := ReadClass(name, comment, reg);
      if !v.Done? {
        return Propagate(v);
      }
      match v.value
      case StringerValue(s) =>
        return Done(Stringer(s));
      case ClassValue(d) =>
        var obj := new ClassObj(d);
        ContentsUpdate(classes, name, obj);
        assert Contents(classes[name := obj]) == reg[name := d];
        classes := classes[name := obj];
        return Done(ClassNode(obj));
    }

    /** The reading part of parseClass: the class as a value, or the text
        that takes its place in the ast. */
    method ReadClass(name: string, comment: string, ghost reg: Classes) returns (o: Outcome<NodeValue>)
      requires Valid()
      modifies this
      ensures Valid() && classes == old(classes)
      ensures var r := ClassFrom(stream, old(next), name, comment, reg);
        SameFailure(o, r) && (r.Done? ==> o.value == r.value.node && next == r.value.next)
    {
      ghost var k := next;
      if |name| == 0 {
        return Panicked(EmptyNameIndex);
      }
      var recv := [ToLower(name[0])] + "_";
      var item := NextItem();
      if !item.Got? {
        return ReadFailure(item);
      }
      if item.t.kind == EOF {
        return Done(StringerValue(UnexpectedEof));
      } else if item.t.kind != Extends {
        return Done(StringerValue("Error: Extends keyword expected, got " + Describe(item.t)));
      }
      var def := ClassDef(name, item.t.val, "", [], [], comment, "", recv, "");
      item := NextItem();
      if !item.Got? {
        return ReadFailure(item);
      }
      if item.t.kind == EOF {
        return Done(StringerValue(UnexpectedEof));
      } else if item.t.kind != LeftDelim {
        return Done(StringerValue("Error: left delimiter expected, got " + Describe(item.t)));
      }
      ClassFromOpened(stream, k, name, comment, reg);
      o := ParseBody(def, reg);
    }

    /** The loop of parseClass over the class body, from the item after the
        left delimiter.  It hands back the finished class, or the text that
        takes its place in the ast. */
    method ParseBody(def: ClassDef, ghost reg: Classes) returns (o: Outcome<NodeValue>)
      requires Valid()
      modifies this
      ensures Valid() && classes == old(classes)
      ensures var r := BodyFrom(stream, old(next), def, "", false, reg);
        SameFailure(o, r) && (r.Done? ==> o.value == r.value.node && next == r.value.next)
    {
      ghost var goal := BodyFrom(stream, next, def, "", false, reg);
      var c := def;
      var curComment := "";
      var isOverride := false;
      while true
        invariant Valid() && classes == old(classes)
        invariant goal == BodyFrom(stream, next, c, curComment, isOverride, reg)
        decreases |stream.items| - next
      {
        var stop, e;
        stop, o, e, curComment, isOverride := ReadRound(c, curComment, isOverride, reg);
        if stop {
          return;
        }
        c := Apply(c, e);
      }
    }

    /** One round of the class body loop: the edit to the class and the new
        comment buffer and override flag, or the return of parseClass. */
    method ReadRound(c: ClassDef, cur: string, isOverride: bool, ghost reg: Classes)
      returns (stop: bool, o: Outcome<NodeValue>, e: Edit, cur2: string, isOverride2: bool)
      requires Valid()
      modifies this
      ensures Valid() && classes == old(classes)
      ensures var rd := BodyRound(stream, old(next), c, cur, isOverride, reg);
        if stop then
          rd.Return? && SameFailure(o, rd.r) && (rd.r.Done? ==> o.value == rd.r.value.node && next == rd.r.value.next)
        else rd == Continue(next, e, cur2, isOverride2)
    {
      stop, o, e, cur2, isOverride2 := false, Diverged, Keep, cur, isOverride;
      var item := NextItem();
      if !item.Got? {
        return true, ReadFailure(item), e, cur2, isOverride2;
      }
      var t := item.t;
      match t.kind
      case EOF =>
        stop, o := true, Done(StringerValue(UnexpectedEof));
      case Comment =>
        cur2 := cur + t.val;
      case LineComment =>
        cur2 := cur + t.val;
      case Member =>
        e, cur2 := AddMember(MemberDef(t.val, cur)), "";
      case Override =>
        isOverride2 := true;
      case Func =>
        var f := ParseFunc(t.val, cur);
        if !f.Done? {
          return true, Propagate(f), e, cur2, isOverride2;
        }
        if f.value.FuncError? {
          return true, Done(StringerValue(f.value.msg)), e, cur2, isOverride2;
        }
        e, cur2, isOverride2 := AddFunc(f.value.f, isOverride), "", false;
      case RightDelim =>
        stop, o := true, Done(ClassValue(WithParent(c)));
      case _ =>
    }

    /** parse: the ast of the whole stream. */
    method Parse() returns (o: Outcome<seq<Node>>)
      requires Valid()
      modifies this
      ensures Valid()
      ensures var r := ParseFrom(stream, old(next), "", [], old(Contents(classes)));
        SameFailure(o, r) &&
        (r.Done? ==>
          next == r.value.next && Values(o.value) == r.value.nodes && Contents(classes) == r.value.classes)
    {
      var out: seq<Node> := [];
      var comment := "";
      ghost var goal := ParseFrom(stream, next, comment, Values(out), Contents(classes));
      while true
        invariant Valid()
        invariant goal == ParseFrom(stream, next, comment, Values(out), Contents(classes))
        decreases |stream.items| - next
      {
        ghost var vals, reg := Values(out), Contents(classes);
        var item := NextItem();
        if !item.Got? {
          return ReadFailure(item);
        }
        var stop: bool;
        stop, o, comment, out := ParseItem(item.t, comment, out, vals, reg);
        if stop {
          return;
        }
      }
    }

    /** One round of parse's loop, on the item `t` it has just read.  When
        parse returns there, `stop` is set and `o` is what it returns;
        otherwise the loop goes on with the new comment and ast. */
    method ParseItem(t: Token, comment: string, out: seq<Node>, ghost vals: seq<NodeValue>, ghost reg: Classes)
      returns (stop: bool, o: Outcome<seq<Node>>, comment2: string, out2: seq<Node>)
      requires Valid() && 0 < next && ReadAt(stream, next - 1) == Got(t)
      requires vals == Values(out) && reg == Contents(classes)
      modifies this
      ensures Valid() && (!stop ==> old(next) <= next)
      ensures var g := ParseFrom(stream, old(next) - 1, comment, vals, reg);
        if stop then
          SameFailure(o, g) &&
          (g.Done? ==>
            next == g.value.next && Values(o.value) == g.value.nodes && Contents(classes) == g.value.classes)
        else g == ParseFrom(stream, next, comment2, Values(out2), Contents(classes))
    {
      stop, o, comment2, out2 := false, Diverged, comment, out;
      match t.kind
      case Text =>
        out2 := out + [Stringer(comment + t.val)];
        ValuesSnoc(out, Stringer(comment + t.val));
        comment2 := "";
      case Class =>
        var failed;
        failed, o, out2 := AppendClass(t.val, comment, out);
        if failed {
          return true, o, comment, out;
        }
        comment2 := "";
      case Error =>
        out2 := out + [Stringer("Error: " + t.val)];
        ValuesSnoc(out, Stringer("Error: " + t.val));
        return true, Done(out2), comment, out2;
      case Comment =>
        comment2 := comment + t.val;
      case LineComment =>
        comment2 := comment + t.val;
      case EOF =>
        if |comment| > 0 {
          out2 := out + [Stringer(comment)];
        ValuesSnoc(out, Stringer(comment));
        } else {
          assert Values(out) + [] == Values(out);
        }
        return true, Done(out2), comment, out2;
      case Package =>
        out2 := out + [Stringer(t.val)];
        ValuesSnoc(out, Stringer(t.val));
      case _ =>
        out2 := out + [Stringer("Unexpected token: " + Describe(t))];
        ValuesSnoc(out, out2[|out|]);
        return true, Done(out2), comment, out2;
    }

    /** The class branch of parse's loop: parseClass, and the node it
        gives appended to the ast; `failed` when parseClass panics or hangs. */
    method AppendClass(name: string, comment: string, out: seq<Node>) returns (failed: bool, o: Outcome<seq<Node>>, out2: seq<Node>)
      requires Valid()
      modifies this
      ensures Valid()
      ensures var r := ClassFrom(stream, old(next), name, comment, old(Contents(classes)));
        if failed then SameFailure(o, r) && !r.Done?
        else
          r.Done? && next == r.value.next && Contents(classes) == r.value.classes &&
          Values(out2) == old(Values(out)) + [r.value.node]
    {
      ghost var vals := Values(out);
      var node := ParseClass(name, comment);
      if !node.Done? {
        return true, Propagate(node), out;
      }
      assert Values(out) == vals;
      out2 := out + [node.value];
      ValuesSnoc(out, node.value);
      o := Done(out2);
      failed := false;
    }
  }

  lemma ValuesSnoc(out: seq<Node>, n: Node)
    ensures Values(out + [n]) == Values(out) + [ValueOf(n)]
  {
    assert (out + [n])[..|out|] == out;
  }

  /** Induction over the class body loop: a property of the class that
      recording a member or a method keeps holds of the class the closing
      delimiter closes, which the registry then holds under its name; an
      error leaves the registry as it was. */
  lemma {:induction false} BodyFromInduct(inv: ClassDef -> bool, st: Stream, k: nat, c: ClassDef, cur: string, isOverride: bool, reg: Classes)
    returns (last: ClassDef)
    requires inv(c)
    requires forall x: ClassDef, m: MemberDef :: inv(x) ==> inv(x.(members := x.members + [m]))
    requires forall x: ClassDef, f: FuncDef, o: bool :: inv(x) && f.processedBody == "" && !f.isOverride ==> inv(WithFunc(x, f, o))
    ensures var r := BodyFrom(st, k, c, cur, isOverride, reg);
      r.Done? ==>
        (r.value.node.StringerValue? ==> r.value.classes == reg) &&
        (r.value.node.ClassValue? ==>
          inv(last) && r.value.node.d == WithParent(last) && r.value.classes == reg[last.name := WithParent(last)])
    decreases |st.items| - k
  {
    last := c;
    match BodyRound(st, k, c, cur, isOverride, reg)
    case Continue(n, e, cur2, o) =>
      last := BodyFromInduct(inv, st, n, Apply(c, e), cur2, o, reg);
    case Return(r) =>
  }

  /** The same, from the class keyword's name on. */
  lemma ClassFromRegisters(st: Stream, k: nat, name: string, comment: string, reg: Classes)
    ensures var r := ClassFrom(st, k, name, comment, reg);
      r.Done? ==>
        (r.value.node.StringerValue? ==> r.value.classes == reg) &&
        (r.value.node.ClassValue? ==> r.value.node.d.name == name && r.value.classes == reg[name := r.value.node.d])
  {
    if name != [] && ReadAt(st, k).Got? && ReadAt(st, k).t.kind == Extends
      && ReadAt(st, k + 1).Got? && ReadAt(st, k + 1).t.kind == LeftDelim
    {
      var recv := Receiver(name).value;
      var c := ClassDef(name, ReadAt(st, k).t.val, "", [], [], comment, "", recv, "");
      ClassFromOpened(st, k, name, comment, reg);
      var last := BodyFromInduct((x: ClassDef) => x.name == name, st, k + 2, c, "", false, reg);
    } else {
      ClassFromEarly(st, k, name, comment, reg);
    }
  }

  /** Once the header is read, the class step is the body loop over the
      class with its name, extends, comment and receiver. */
  lemma ClassFromOpened(st: Stream, k: nat, name: string, comment: string, reg: Classes)
    requires name != [] && ReadAt(st, k).Got? && ReadAt(st, k).t.kind == Extends
    requires ReadAt(st, k + 1).Got? && ReadAt(st, k + 1).t.kind == LeftDelim
    ensures ClassFrom(st, k, name, comment, reg)
      == BodyFrom(st, k + 2, ClassDef(name, ReadAt(st, k).t.val, "", [], [], comment, "", Receiver(name).value, ""),
           "", false, reg)
  {
  }

  /** Before the class body opens, the class step only reports an error. */
  lemma ClassFromEarly(st: Stream, k: nat, name: string, comment: string, reg: Classes)
    requires !(name != [] && ReadAt(st, k).Got? && ReadAt(st, k).t.kind == Extends
      && ReadAt(st, k + 1).Got? && ReadAt(st, k + 1).t.kind == LeftDelim)
    ensures var r := ClassFrom(st, k, name, comment, reg);
      r.Done? ==> r.value.node.StringerValue? && r.value.classes == reg
  {
  }

  lemma ContentsUpdate(reg: Registry, name: string, x: ClassObj)
    ensures Contents(reg[name := x]) == Contents(reg)[name := x.State()]
  {
  }

  // ---------------------------------------------------------------------
  // Output: the data handed to the template, and the template's text

  /** processFuncBody, with `convert` as convertBody. */
  method ProcessFuncBody(body: string, convert: string -> string) returns (o: Outcome<string>)
    ensures o == BodyOut(body, convert)
  {
    o := BodyScan.ProcessFuncBody(body, convert);
    if o.Done? {
      o := Done(TrimSpace(Trim(o.value, BraceCut)));
    }
  }

  /** convertBody for the class with this receiver, name and parent. */
  function ConvertFor(receiver: string, name: string, ext: string): string -> string {
    s => Rewrite.GoppConvert(s, receiver, name, ext)
  }

  /** processFuncBody: the scan and rewrite of the body, then the braces and
      blanks at both ends cut off, then the white space. */
  function BodyOut(body: string, convert: string -> string): (r: Outcome<string>)
    ensures !r.Diverged?
    ensures r.Panicked? ==> r.msg == BodyScan.OpenQuote
    ensures r.Done? ==> r.value == [] || (!IsWhite(r.value[0]) && !IsWhite(r.value[|r.value| - 1]))
  {
    var p := BodyScan.Processed(body, convert);
    if p.Done? then Done(TrimSpace(Trim(p.value, BraceCut))) else p
  }

  /** The loop of classDef.String over the methods: each gets its processed
      body, in order, until one panics. */
  function FuncsOut(fs: seq<FuncDef>, convert: string -> string): (r: Outcome<seq<FuncDef>>)
    ensures r.Done? ==> |r.value| == |fs|
    decreases |fs|
  {
    if fs == [] then Done([])
    else
      var init := FuncsOut(fs[..|fs| - 1], convert);
      var f := fs[|fs| - 1];
      if !init.Done? then init
      else
        var b := BodyOut(f.body, convert);
        if b.Done? then Done(init.value + [f.(processedBody := b.value)]) else Propagate(b)
  }

  /** The methods as the loop of classDef.String leaves them: each body
      processed and written back in turn; from the first body that panics
      on, the methods are as they were. */
  function FuncsAfter(fs: seq<FuncDef>, convert: string -> string): (r: seq<FuncDef>)
    ensures |r| == |fs|
    ensures FuncsOut(fs, convert).Done? ==> r == FuncsOut(fs, convert).value
    decreases |fs|
  {
    if fs == [] then []
    else
      var n := |fs| - 1;
      var init := FuncsOut(fs[..n], convert);
      if !init.Done? then FuncsAfter(fs[..n], convert) + [fs[n]]
      else
        var b := BodyOut(fs[n].body, convert);
        if b.Done? then init.value + [fs[n].(processedBody := b.value)] else init.value + [fs[n]]
  }

  /** When method j is the first whose body panics, the methods before it
      hold their processed bodies and the others are untouched. */
  lemma {:induction false} FuncsAfterPanic(fs: seq<FuncDef>, j: nat, convert: string -> string)
    requires j < |fs| && FuncsOut(fs[..j], convert).Done? && !BodyOut(fs[j].body, convert).Done?
    ensures FuncsAfter(fs, convert) == FuncsOut(fs[..j], convert).value + fs[j..]
    decreases |fs|
  {
    if j + 1 == |fs| {
      PanicLast(fs, j, convert);
    } else {
      var p := fs[..|fs| - 1];
      DropLast(fs, j);
      FuncsAfterPanic(p, j, convert);
      FirstPanic(p, j, convert);
      PanicEarlier(fs, j, FuncsOut(fs[..j], convert).value, convert);
    }
  }
  /** Writing element `i` of a list whose first `i` elements are `done`
      extends `done` by one. */
  lemma WriteBack<T>(done: seq<T>, s: seq<T>, i: nat, x: T)
    requires |done| == i < |s|
    ensures (done + s[i..])[i := x] == (done + [x]) + s[i + 1..]
  {
  }
  /** Dropping the last element of a list keeps what lies before index `j`
      and the element at `j`, and the tail from `j` on loses only that last
      element. */
  lemma DropLast<T>(s: seq<T>, j: nat)
    requires j + 1 < |s|
    ensures s[..|s| - 1][..j] == s[..j] && s[..|s| - 1][j] == s[j]
    ensures s[..|s| - 1][j..] + [s[|s| - 1]] == s[j..]
  {
  }
  /** The panicking method is the last one. */
  lemma PanicLast(fs: seq<FuncDef>, j: nat, convert: string -> string)
    requires j + 1 == |fs| && FuncsOut(fs[..j], convert).Done? && !BodyOut(fs[j].body, convert).Done?
    ensures FuncsAfter(fs, convert) == FuncsOut(fs[..j], convert).value + fs[j..]
  {
    assert fs[..|fs| - 1] == fs[..j];
    assert fs[j..] == [fs[j]];
  }
  /** The panicking method has others after it: the last one is left as it
      was, after the methods the shorter list leaves. */
  lemma PanicEarlier(fs: seq<FuncDef>, j: nat, head: seq<FuncDef>, convert: string -> string)
    requires j + 1 < |fs| && !FuncsOut(fs[..|fs| - 1], convert).Done?
    requires FuncsAfter(fs[..|fs| - 1], convert) == head + fs[..|fs| - 1][j..]
    ensures FuncsAfter(fs, convert) == head + fs[j..]
  {
    FuncsAfterAfterPanic(fs, convert);
    AppendLast(head, fs, j);
  }

  /** The tail from `j` of all but the last, and the last after it. */
  lemma AppendLast<T>(head: seq<T>, s: seq<T>, j: nat)
    requires j + 1 < |s|
    ensures (head + s[..|s| - 1][j..]) + [s[|s| - 1]] == head + s[j..]
  {
    DropLast(s, j);
  }

  /** Once the methods before the last have panicked, the last is left. */
  lemma FuncsAfterAfterPanic(fs: seq<FuncDef>, convert: string -> string)
    requires fs != [] && !FuncsOut(fs[..|fs| - 1], convert).Done?
    ensures FuncsAfter(fs, convert) == FuncsAfter(fs[..|fs| - 1], convert) + [fs[|fs| - 1]]
  {
  }

  /** A panicking body stops the loop there and then. */
  lemma FirstPanic(fs: seq<FuncDef>, j: nat, convert: string -> string)
    requires j < |fs| && FuncsOut(fs[..j], convert).Done? && !BodyOut(fs[j].body, convert).Done?
    ensures !FuncsOut(fs, convert).Done?
  {
    PanicStep(fs, j, convert);
    PanicStops(fs, j, convert);
  }
  /** A panic at or before index `j` makes the whole list panic. */
  lemma PanicStops(fs: seq<FuncDef>, j: nat, convert: string -> string)
    requires j + 1 <= |fs| && !FuncsOut(fs[..j + 1], convert).Done?
    ensures !FuncsOut(fs, convert).Done?
  {
    FuncsOutFails(fs, j + 1, convert);
  }

  lemma PanicStep(fs: seq<FuncDef>, j: nat, convert: string -> string)
    requires j < |fs| && FuncsOut(fs[..j], convert).Done? && !BodyOut(fs[j].body, convert).Done?
    ensures !FuncsOut(fs[..j + 1], convert).Done?
  {
    FuncsOutStep(fs, j, convert, FuncsOut(fs[..j], convert).value);
  }

  /** The fields classDef.String leaves in the object, whether or not it
      panics: the argument list filled in, and the bodies processed in place
      up to the first panic. */
  function AfterPrepare(d: ClassDef): (r: ClassDef)
    ensures Prepared(d).Done? ==> r == Prepared(d).value
    ensures r == d.(parentVarList := r.parentVarList, funcs := r.funcs) && |r.funcs| == |d.funcs|
  {
    d.(parentVarList := Params.VarList(d.ctorParams), funcs := FuncsAfter(d.funcs, ConvertFor(d.receiver, d.name, d.ext)))
  }

  /** The class as classDef.String hands it to the template: the argument
      list of the constructor call filled in, and every method's body
      processed. */
  function Prepared(d: ClassDef): Outcome<ClassDef> {
    var fs := FuncsOut(d.funcs, ConvertFor(d.receiver, d.name, d.ext));
    if fs.Done? then Done(d.(parentVarList := Params.VarList(d.ctorParams), funcs := fs.value))
    else Propagate(fs)
  }

  /** The interface filter of the template: a method is declared in the
      interface unless it is the constructor or overrides a parent's. */
  predicate Declared(f: FuncDef) {
    f.name != Constructor && !f.isOverride
  }

  /** The range over the methods inside the interface: a blank per method,
      and each declared method on a line of its own. */
  function InterfaceLines(fs: seq<FuncDef>): string
    decreases |fs|
  {
    if fs == [] then ""
    else InterfaceLines(fs[..|fs| - 1]) + " " + InterfaceLine(fs[|fs| - 1])
  }

  function InterfaceLine(f: FuncDef): string {
    if Declared(f) then "\n\t" + f.name + f.params else ""
  }

  /** The range over the members inside the struct. */
  function MemberLines(ms: seq<MemberDef>): string
    decreases |ms|
  {
    if ms == [] then ""
    else
      var m := ms[|ms| - 1];
      MemberLines(ms[..|ms| - 1]) + (if m.comment != "" then "\t" + m.comment + "\n" else "") + "\t" + m.name
  }

  /** The range over the methods after the constructor. */
  function MethodTexts(receiver: string, name: string, fs: seq<FuncDef>): string
    decreases |fs|
  {
    if fs == [] then ""
    else
      var f := fs[|fs| - 1];
      MethodTexts(receiver, name, fs[..|fs| - 1]) +
      "\nfunc (" + receiver + " *" + name + ") " + f.name + " " + f.params + " {\n" + f.processedBody + "\n}\n"
  }

  /** The interface declaration the template starts with. */
  function InterfaceDecl(d: ClassDef): string {
    "\n" + d.comment + "\ntype " + d.name + "I interface {\n\t" + d.ext + "I\n" + InterfaceLines(d.funcs) + "\n}\n\n"
  }

  /** The struct declaration, embedding the class it extends. */
  function StructDecl(d: ClassDef): string {
    "type " + d.name + " struct {\n\t" + d.ext + "\n" + MemberLines(d.members) + "\n}\n\n"
  }

  /** The constructor call inside the New function. */
  function ConstructCall(d: ClassDef): string {
    d.receiver + ".Construct(" + d.parentVarList + ")"
  }

  /** The New function: allocates the struct, initialises it and calls its
      constructor. */
  function NewFunc(d: ClassDef): string {
    NewOpen(d) + ConstructCall(d) + NewReturn(d)
  }

  function NewOpen(d: ClassDef): string {
    "// New " + d.name + " creates a new " + d.name + " object and returns its matching interface\n" +
    "func New" + d.name + " (" + d.ctorParams + ") " + d.name + "I {\n" +
    "\t" + d.receiver + " := " + d.name + "{}\n" +
    "\t" + d.receiver + ".Init(&" + d.receiver + ")\n\t"
  }

  function NewReturn(d: ClassDef): string {
    "\n\treturn " + d.receiver + ".I().(" + d.name + "I)\n}\n\n\n"
  }

  /** The IsA and Class methods the template ends with. */
  function ClassMethods(d: ClassDef): string {
    "\nfunc (" + d.receiver + " *" + d.name + ") IsA(className string) bool {\n" +
    "\tif className == \"" + d.name + "\" {\n\t\treturn true\n\t}\n" +
    "\treturn " + d.receiver + "." + d.parent + ".IsA(className)\n}\n\n" +
    "func (" + d.receiver + " *" + d.name + ") Class() string {\n\treturn \"" + d.name + "\"\n}\n"
  }

  /** The text the class template renders for a prepared class. */
  function Template(d: ClassDef): string {
    InterfaceDecl(d) + StructDecl(d) + NewFunc(d) + MethodTexts(d.receiver, d.name, d.funcs) + ClassMethods(d)
  }

  /** classDef.String on a class with these fields. */
  function Printed(d: ClassDef): Outcome<string> {
    var p := Prepared(d);
    if p.Done? then Done(Template(p.value)) else Propagate(p)
  }

  /** The text of one node: a class prints itself. */
  function NodeText(v: NodeValue): Outcome<string> {
    match v
    case StringerValue(s) => Done(s)
    case ClassValue(d) => Printed(d)
  }

  /** ast.String: the nodes' texts, concatenated, until a class panics. */
  function AstText(values: seq<NodeValue>): Outcome<string>
    decreases |values|
  {
    if values == [] then Done("")
    else
      var init := AstText(values[..|values| - 1]);
      var last := NodeText(values[|values| - 1]);
      if !init.Done? then init
      else if last.Done? then Done(init.value + last.value)
      else last
  }


  /** One more round of the loop over the methods. */
  lemma FuncsOutStep(fs: seq<FuncDef>, i: nat, convert: string -> string, done: seq<FuncDef>)
    requires i < |fs| && FuncsOut(fs[..i], convert) == Done(done)
    ensures var b := BodyOut(fs[i].body, convert);
      FuncsOut(fs[..i + 1], convert) ==
        if b.Done? then Done(done + [fs[i].(processedBody := b.value)]) else Propagate(b)
  {
    assert fs[..i + 1][..i] == fs[..i];
  }

  /** A panic in the first j methods is the panic of the whole loop. */
  lemma {:induction false} FuncsOutFails(fs: seq<FuncDef>, j: nat, convert: string -> string)
    requires j <= |fs| && !FuncsOut(fs[..j], convert).Done?
    ensures FuncsOut(fs, convert) == FuncsOut(fs[..j], convert)
    decreases |fs|
  {
    if j < |fs| {
      assert fs[..|fs| - 1][..j] == fs[..j];
      FuncsOutFails(fs[..|fs| - 1], j, convert);
    } else {
      assert fs[..j] == fs;
    }
  }

  /** ast.String over the class objects: each class is printed in turn, and
      printed classes keep the fields String gave them.  An object that
      occurs twice in the ast prints the same text both times.  Each object
      ends up untouched or prepared, and when printing finishes, prepared. */
  method AstString(nodes: seq<Node>) returns (o: Outcome<string>)
    modifies Objects(nodes)
    ensures o == AstText(old(Values(nodes)))
    ensures forall x :: x in Objects(nodes) ==> Holds(x, old(x.State()))
    ensures o.Done? ==> forall x :: x in Objects(nodes) ==> x.State() == AfterPrepare(old(x.State()))
  {
    ghost var vals := Values(nodes);
    assert forall j :: 0 <= j < |nodes| ==> vals[j] == ValueOf(nodes[j]);
    var out := "";
    for i := 0 to |nodes|
      invariant AstText(vals[..i]) == Done(out)
      invariant Printing(nodes, vals, i)
      invariant forall j :: 0 <= j < |nodes| && nodes[j].ClassNode? ==> vals[j] == ClassValue(old(nodes[j].c.State()))
    {
      AstTextStep(vals, i, out);
      var p := PrintNode(nodes, vals, i);
      if !p.Done? {
        AstTextFails(vals, i + 1);
        return p;
      }
      out := out + p.value;
    }
    assert vals[..|vals|] == vals;
    o := Done(out);
  }

  /** While ast.String prints node i: every node still fits its value as
      the print began, and the class nodes before i are prepared. */
  predicate Printing(nodes: seq<Node>, vals: seq<NodeValue>, i: nat)
    reads Objects(nodes)
  {
    |vals| == |nodes| && i <= |nodes| &&
    (forall j :: 0 <= j < |nodes| ==> Fits(nodes[j], vals[j])) &&
    (forall j :: 0 <= j < i && nodes[j].ClassNode? ==> nodes[j].c.State() == AfterPrepare(vals[j].d))
  }

  /** One turn of ast.String's loop: node i prints as its value says, and
      the objects keep fitting their values, now with node i prepared. */
  method PrintNode(nodes: seq<Node>, ghost vals: seq<NodeValue>, i: nat) returns (p: Outcome<string>)
    requires i < |nodes| && Printing(nodes, vals, i)
    modifies Objects(nodes)
    ensures p == NodeText(vals[i])
    ensures Printing(nodes, vals, i + 1)
  {
    assert nodes[i].ClassNode? ==> nodes[i].c in Objects(nodes);
    label before:
    p := NodeString(nodes[i], vals[i]);
    forall j | 0 <= j < |nodes|
      ensures Fits(nodes[j], vals[j])
      ensures j <= i && nodes[j].ClassNode? ==> nodes[j].c.State() == AfterPrepare(vals[j].d)
    {
      if nodes[i].ClassNode? && nodes[j].ClassNode? && nodes[j].c == nodes[i].c {
        AfterPrepareIdempotent(vals[j].d);
      } else {
        assert nodes[j].ClassNode? ==> nodes[j].c.State() == old@before(nodes[j].c.State());
      }
    }
  }

  /** Object `x` holds the class `d` as the parser built it, or prepared by
      a print of it. */
  predicate Holds(x: ClassObj, d: ClassDef)
    reads x
  {
    x.State() == d || x.State() == AfterPrepare(d)
  }

  /** Node `n` of the ast holds the value `v`. */
  predicate Fits(n: Node, v: NodeValue)
    reads ObjectOf(n)
  {
    match n
    case Stringer(s) => v == StringerValue(s)
    case ClassNode(c) => v.ClassValue? && Holds(c, v.d)
  }

  /** The text of one node of the ast. */
  method NodeString(n: Node, ghost v: NodeValue) returns (p: Outcome<string>)
    requires Fits(n, v)
    modifies ObjectOf(n)
    ensures p == NodeText(v)
    ensures n.ClassNode? ==> n.c.State() == AfterPrepare(v.d)
  {
    match n {
      case Stringer(s) =>
        p := Done(s);
      case ClassNode(c) =>
        p := PrintClass(c, v.d);
    }
  }

  /** Printing a class object that holds `d`: the text of `d`, and the
      object is left prepared whether or not the print panics. */
  method PrintClass(c: ClassObj, ghost d: ClassDef) returns (p: Outcome<string>)
    requires Holds(c, d)
    modifies c
    ensures p == Printed(d)
    ensures c.State() == AfterPrepare(d)
  {
    if c.State() != d {
      AfterPrepareIdempotent(d);
    }
    p := c.String();
  }

  /** One more node of ast.String. */
  lemma AstTextStep(vals: seq<NodeValue>, i: nat, out: string)
    requires i < |vals| && AstText(vals[..i]) == Done(out)
    ensures var p := NodeText(vals[i]);
      AstText(vals[..i + 1]) == if p.Done? then Done(out + p.value) else p
  {
    assert vals[..i + 1][..i] == vals[..i];
  }

  /** A panic in the first j nodes is the panic of the whole ast. */
  lemma {:induction false} AstTextFails(vals: seq<NodeValue>, j: nat)
    requires j <= |vals| && !AstText(vals[..j]).Done?
    ensures AstText(vals) == AstText(vals[..j])
    decreases |vals|
  {
    if j < |vals| {
      assert vals[..|vals| - 1][..j] == vals[..j];
      AstTextFails(vals[..|vals| - 1], j);
    } else {
      assert vals[..j] == vals;
    }
  }

  /** Processing processed methods again changes nothing: the processed
      body is computed from the body, which processing leaves alone. */
  lemma {:induction false} FuncsOutIdempotent(fs: seq<FuncDef>, convert: string -> string)
    requires FuncsOut(fs, convert).Done?
    ensures FuncsOut(FuncsOut(fs, convert).value, convert) == FuncsOut(fs, convert)
    decreases |fs|
  {
    if fs != [] {
      var gs := FuncsOut(fs, convert).value;
      var n := |fs| - 1;
      FuncsOutIdempotent(fs[..n], convert);
      assert gs[..n] == FuncsOut(fs[..n], convert).value;
    }
  }

  /** Running the loop of classDef.String again over the methods it left,
      whether or not it panicked, panics the same way or returns the same
      methods, and leaves them as they were. */
  lemma {:induction false} FuncsAfterIdempotent(fs: seq<FuncDef>, convert: string -> string)
    ensures FuncsOut(FuncsAfter(fs, convert), convert) == FuncsOut(fs, convert)
    ensures FuncsAfter(FuncsAfter(fs, convert), convert) == FuncsAfter(fs, convert)
    decreases |fs|
  {
    if fs != [] {
      var n := |fs| - 1;
      var gs := FuncsAfter(fs, convert);
      FuncsAfterIdempotent(fs[..n], convert);
      assert gs[..n] == FuncsAfter(fs[..n], convert);
      assert gs[n].body == fs[n].body;
    }
  }

  /** classDef.String run a second time, after a first that finished or
      panicked, leaves the same fields and gives the same outcome. */
  lemma AfterPrepareIdempotent(d: ClassDef)
    ensures AfterPrepare(AfterPrepare(d)) == AfterPrepare(d)
    ensures Prepared(AfterPrepare(d)) == Prepared(d)
    ensures Printed(AfterPrepare(d)) == Printed(d)
  {
    FuncsAfterIdempotent(d.funcs, ConvertFor(d.receiver, d.name, d.ext));
  }

  /** String is idempotent on the fields it fills in: a prepared class is
      its own preparation, and prints the same text. */
  lemma PreparedIdempotent(d: ClassDef)
    requires Prepared(d).Done?
    ensures Prepared(Prepared(d).value) == Prepared(d)
    ensures Printed(Prepared(d).value) == Printed(d)
  {
    FuncsOutIdempotent(d.funcs, ConvertFor(d.receiver, d.name, d.ext));
  }
}
