/**
  The older code generator (parser.go): the parser that turns the lexer's items
  into an ast of literal text and class definitions, the global registry of
  classes, and the plain string building that prints a class as an interface,
  a struct, a New function, its methods and two reflection methods.

  The parser reads the stream through `ReadAt`, so reading past the EOF item
  panics like nextItem does, and reading from a lexer that hangs hangs.  The
  functions `FuncFrom`, `ClassFrom`, `BodyFrom` and `ParseFrom` state what the
  parsing loops compute from a stream position; the class `Parser` runs those
  loops over its own cursor and registry.
 */
module Legacy {
  import opened GoStrings
  import opened Items
  import Params
  import Rewrite
  import BodyScan

  /** memberDef: the member line and the comments just before it. */
  datatype MemberDef = MemberDef(name: string, comments: string)

  /** funcDef: name, raw parameter text, raw body and the comments before it. */
  datatype FuncDef = FuncDef(name: string, params: string, body: string, comments: string)

  /** classDef; `ext` is the name after `extends`. */
  datatype ClassDef = ClassDef(
    name: string, ext: string, ctorParams: string,
    members: seq<MemberDef>, funcs: seq<FuncDef>, comment: string)

  /** The global `classes` map, by class name. */
  type Registry = map<string, ClassDef>

  /** An element of the ast: literal text (a stringer) or a class. */
  datatype Node = Stringer(s: string) | ClassNode(c: ClassDef)

  /** The name the older generator gives the constructor. */
  const Constructor := "Construct_"
  const UnexpectedEof := "Unexpected EOF"

  /** A parsing result together with the stream position after it. */
  datatype Step<T> = Step(value: T, next: nat)

  /** parseFunc's two results: the method, or the error text. */
  datatype FuncRead = GotFunc(f: FuncDef) | FuncError(msg: string)

  /** parseClass's node, the registry after it and the stream position. */
  datatype ClassStep = ClassStep(node: Node, classes: Registry, next: nat)

  /** parse's ast, the registry after it and the stream position. */
  datatype Parsed = Parsed(nodes: seq<Node>, classes: Registry, next: nat)

  function Value<T>(o: Outcome<Step<T>>): Outcome<T> {
    match o
    case Done(s) => Done(s.value)
    case Panicked(m) => Panicked(m)
    case Diverged => Diverged
  }

  /** The parameters of the last method named Construct_, or "" when there is
      none: parseClass overwrites constructorParams at each one. */
  function CtorParams(funcs: seq<FuncDef>): string
    decreases |funcs|
  {
    if funcs == [] then ""
    else if funcs[|funcs| - 1].name == Constructor then funcs[|funcs| - 1].params
    else CtorParams(funcs[..|funcs| - 1])
  }

  /** The registry after registering the classes among `nodes`, in order. */
  function Registered(reg: Registry, nodes: seq<Node>): Registry
    decreases |nodes|
  {
    if nodes == [] then reg
    else
      var before := Registered(reg, nodes[..|nodes| - 1]);
      match nodes[|nodes| - 1]
      case ClassNode(c) => before[c.name := c]
      case Stringer(_) => before
  }

  lemma RegisteredSnoc(reg: Registry, nodes: seq<Node>, n: Node)
    ensures Registered(reg, nodes + [n]) ==
      match n
      case ClassNode(c) => Registered(reg, nodes)[c.name := c]
      case Stringer(_) => Registered(reg, nodes)
  {
    assert (nodes + [n])[..|nodes|] == nodes;
  }

  // ---------------------------------------------------------------------
  // What the parsing loops compute

  /** parseFunc: a parameters item, then a body item. */
  function FuncFrom(st: Stream, k: nat, name: string, comment: string): (r: Outcome<Step<FuncRead>>)
    ensures r.Done? ==> k < r.value.next <= |st.items|
    ensures r.Done? && r.value.value.GotFunc? ==>
      r.value.value.f.name == name && r.value.value.f.comments == comment
  {
    match ReadAt(st, k)
    case Got(p) =>
      if p.kind != FuncParams then
        Done(Step(FuncError("Error: function parameters expected, got " + Describe(p)), k + 1))
      else
        (match ReadAt(st, k + 1)
         case Got(b) =>
           if b.kind != FuncBody then
             Done(Step(FuncError("Error: function body expected, got " + Describe(b)), k + 2))
           else Done(Step(GotFunc(FuncDef(name, p.val, b.val, comment)), k + 2))
         case r => ReadFailure(r))
    case r => ReadFailure(r)
  }

  /** The class body loop of parseClass, with the class collected so far and
      the comments seen since the last member or method. */
  function BodyFrom(st: Stream, k: nat, c: ClassDef, cur: string, reg: Registry): (r: Outcome<ClassStep>)
    requires c.ctorParams == CtorParams(c.funcs)
    ensures r.Done? ==> k < r.value.next <= |st.items|
    ensures r.Done? && r.value.node.Stringer? ==> r.value.classes == reg
    ensures r.Done? && r.value.node.ClassNode? ==>
      var d := r.value.node.c;
      r.value.classes == reg[d.name := d] &&
      d.name == c.name && d.ext == c.ext && d.comment == c.comment &&
      d.ctorParams == CtorParams(d.funcs)
    decreases |st.items| - k
  {
    match ReadAt(st, k)
    case Got(t) =>
      (match t.kind
       case EOF => Done(ClassStep(Stringer(UnexpectedEof), reg, k + 1))
       case Comment => BodyFrom(st, k + 1, c, cur + t.val, reg)
       case LineComment => BodyFrom(st, k + 1, c, cur + t.val, reg)
       case Member => BodyFrom(st, k + 1, c.(members := c.members + [MemberDef(t.val, cur)]), "", reg)
       case Func =>
         (match FuncFrom(st, k + 1, t.val, cur)
          case Done(Step(GotFunc(f), n)) =>
            var funcs := c.funcs + [f];
            assert funcs[..|funcs| - 1] == c.funcs;
            BodyFrom(st, n, c.(funcs := funcs, ctorParams := if t.val == Constructor then f.params else c.ctorParams), "", reg)
          case Done(Step(FuncError(e), n)) => Done(ClassStep(Stringer(e), reg, n))
          case Panicked(m) => Panicked(m)
          case Diverged => Diverged)
       case RightDelim => Done(ClassStep(ClassNode(c), reg[c.name := c], k + 1))
       case _ => BodyFrom(st, k + 1, c, cur, reg))
    case r => ReadFailure(r)
  }

  /** parseClass, from the item after the class keyword: an extends item,
      a left delimiter, then the body. */
  function ClassFrom(st: Stream, k: nat, name: string, comment: string, reg: Registry): (r: Outcome<ClassStep>)
    ensures r.Done? ==> k < r.value.next <= |st.items|
    ensures r.Done? && r.value.node.Stringer? ==> r.value.classes == reg
    ensures r.Done? && r.value.node.ClassNode? ==>
      var d := r.value.node.c;
      r.value.classes == reg[name := d] &&
      d.name == name && d.comment == comment && d.ctorParams == CtorParams(d.funcs)
  {
    match ReadAt(st, k)
    case Got(t) =>
      if t.kind == EOF then Done(ClassStep(Stringer(UnexpectedEof), reg, k + 1))
      else if t.kind != Extends then
        Done(ClassStep(Stringer("Error: Extends keyword expected, got " + Describe(t)), reg, k + 1))
      else
        (match ReadAt(st, k + 1)
         case Got(d) =>
           if d.kind == EOF then Done(ClassStep(Stringer(UnexpectedEof), reg, k + 2))
           else if d.kind != LeftDelim then
             Done(ClassStep(Stringer("Error: left delimiter expected, got " + Describe(d)), reg, k + 2))
           else BodyFrom(st, k + 2, ClassDef(name, t.val, "", [], [], comment), "", reg)
         case r => ReadFailure(r))
    case r => ReadFailure(r)
  }

  /** The loop of parse, with the ast built so far and the pending comments.
      Whatever it returns extends `out`, and the registry it leaves is `reg`
      with the parsed classes registered in order. */
  function ParseFrom(st: Stream, k: nat, comment: string, out: seq<Node>, reg: Registry): (r: Outcome<Parsed>)
    ensures r.Done? ==> k < r.value.next <= |st.items|
    decreases |st.items| - k
  {
    match ReadAt(st, k)
    case Got(t) =>
      (match t.kind
       case Text => ParseFrom(st, k + 1, "", out + [Stringer(comment + t.val)], reg)
       case Class =>
         (match ClassFrom(st, k + 1, t.val, comment, reg)
          case Done(cs) => ParseFrom(st, cs.next, "", out + [cs.node], cs.classes)
          case Panicked(m) => Panicked(m)
          case Diverged => Diverged)
       case Error => Done(Parsed(out + [Stringer("Error: " + t.val)], reg, k + 1))
       case Comment => ParseFrom(st, k + 1, comment + t.val, out, reg)
       case LineComment => ParseFrom(st, k + 1, comment + t.val, out, reg)
       case EOF => Done(Parsed(out + (if |comment| > 0 then [Stringer(comment)] else []), reg, k + 1))
       case Package => ParseFrom(st, k + 1, comment, out + [Stringer(t.val)], reg)
       case _ => Done(Parsed(out + [Stringer("Unexpected token: " + Describe(t))], reg, k + 1)))
    case r => ReadFailure(r)
  }

  /** parse over a whole stream, with the registry left by earlier files. */
  function Parse(st: Stream, reg: Registry): (r: Outcome<Parsed>)
    ensures r.Done? ==> 0 < r.value.next <= |st.items|
  {
    ParseFrom(st, 0, "", [], reg)
  }

  // ---------------------------------------------------------------------
  // The parser over the lexer: the cursor is how many items nextItem has
  // handed out, and `classes` is the global registry.

  class Parser {
    const stream: Stream
    var next: nat
    var classes: Registry

    ghost predicate Valid()
      reads this
    {
      next <= |stream.items|
    }

    constructor (st: Stream, reg: Registry)
      ensures stream == st && next == 0 && classes == reg && Valid()
    {
      stream := st;
      next := 0;
      classes := reg;
    }

    /** lexer.nextItem: the next item, which moves the cursor; anything else
        (a closed channel, a lexer that hangs or crashed) leaves it. */
    method NextItem() returns (r: Read)
      requires Valid()
      modifies this
      ensures Valid() && classes == old(classes)
      ensures r == ReadAt(stream, old(next))
      ensures next == if r.Got? then old(next) + 1 else old(next)
    {
      r := ReadAt(stream, next);
      if r.Got? {
        next := next + 1;
      }
    }

    /** parseFunc */
    method ParseFunc(name: string, comment: string) returns (o: Outcome<FuncRead>)
      requires Valid()
      modifies this
      ensures Valid() && classes == old(classes)
      ensures var r := FuncFrom(stream, old(next), name, comment);
        o == Value(r) && (r.Done? ==> next == r.value.next)
    {
      var params := NextItem();
      if !params.Got? {
        return ReadFailure(params);
      }
      if params.t.kind != FuncParams {
        return Done(FuncError("Error: function parameters expected, got " + Describe(params.t)));
      }
      var body := NextItem();
      if !body.Got? {
        return ReadFailure(body);
      }
      if body.t.kind != FuncBody {
        return Done(FuncError("Error: function body expected, got " + Describe(body.t)));
      }
      return Done(GotFunc(FuncDef(name, params.t.val, body.t.val, comment)));
    }

    /** parseClass: the class keyword has been read; `name` is its text.  A
        class that closes is registered under its name. */
    method ParseClass(name: string, comment: string) returns (o: Outcome<Node>)
      requires Valid()
      modifies this
      ensures Valid()
      ensures var r := ClassFrom(stream, old(next), name, comment, old(classes));
        o == NodeOf(r) && (r.Done? ==> next == r.value.next && classes == r.value.classes)
    {
      ghost var k := next;
      var item := NextItem();
      if !item.Got? {
        return ReadFailure(item);
      }
      if item.t.kind == EOF {
        return Done(Stringer(UnexpectedEof));
      } else if item.t.kind != Extends {
        return Done(Stringer("Error: Extends keyword expected, got " + Describe(item.t)));
      }
      var def := ClassDef(name, item.t.val, "", [], [], comment);
      item := NextItem();
      if !item.Got? {
        return ReadFailure(item);
      }
      if item.t.kind == EOF {
        return Done(Stringer(UnexpectedEof));
      } else if item.t.kind != LeftDelim {
        return Done(Stringer("Error: left delimiter expected, got " + Describe(item.t)));
      }
      var curComment := "";
      assert ClassFrom(stream, k, name, comment, classes) == BodyFrom(stream, next, def, curComment, classes);
      while true
        invariant Valid() && classes == old(classes)
        invariant def.ctorParams == CtorParams(def.funcs)
        invariant ClassFrom(stream, k, name, comment, classes) == BodyFrom(stream, next, def, curComment, classes)
        decreases |stream.items| - next
      {
        item := NextItem();
        if !item.Got? {
          return ReadFailure(item);
        }
        var t := item.t;
        match t.kind
        case EOF =>
          return Done(Stringer(UnexpectedEof));
        case Comment =>
          curComment := curComment + t.val;
        case LineComment =>
          curComment := curComment + t.val;
        case Member =>
          def := def.(members := def.members + [MemberDef(t.val, curComment)]);
          curComment := "";
        case Func =>
          var f := ParseFunc(t.val, curComment);
          if !f.Done? {
            return Propagate(f);
          }
          if f.value.FuncError? {
            return Done(Stringer(f.value.msg));
          }
          var funcs := def.funcs + [f.value.f];
          assert funcs[..|funcs| - 1] == def.funcs;
          def := def.(funcs := funcs);
          if t.val == Constructor {
            def := def.(ctorParams := f.value.f.params);
          }
          curComment := "";
        case RightDelim =>
          classes := classes[def.name := def];
          return Done(ClassNode(def));
        case _ =>
      }
    }

    /** parse: the ast of the whole stream. */
    method Parse() returns (o: Outcome<seq<Node>>)
      requires Valid()
      modifies this
      ensures Valid()
      ensures var r := ParseFrom(stream, old(next), "", [], old(classes));
        o == NodesOf(r) && (r.Done? ==> next == r.value.next && classes == r.value.classes)
    {
      var out: seq<Node> := [];
      var comment := "";
      ghost var goal := ParseFrom(stream, next, comment, out, classes);
      while true
        invariant Valid()
        invariant goal == ParseFrom(stream, next, comment, out, classes)
        decreases |stream.items| - next
      {
        var item := NextItem();
        if !item.Got? {
          return ReadFailure(item);
        }
        var t := item.t;
        match t.kind
        case Text =>
          out := out + [Stringer(comment + t.val)];
          comment := "";
        case Class =>
          var node := ParseClass(t.val, comment);
          if !node.Done? {
            return Propagate(node);
          }
          out := out + [node.value];
          comment := "";
        case Error =>
          out := out + [Stringer("Error: " + t.val)];
          return Done(out);
        case Comment =>
          comment := comment + t.val;
        case LineComment =>
          comment := comment + t.val;
        case EOF =>
          if |comment| > 0 {
            out := out + [Stringer(comment)];
          } else {
            assert out + [] == out;
          }
          return Done(out);
        case Package =>
          out := out + [Stringer(t.val)];
        case _ =>
          out := out + [Stringer("Unexpected token: " + Describe(t))];
          return Done(out);
      }
    }
  }

  function NodeOf(o: Outcome<ClassStep>): Outcome<Node> {
    match o
    case Done(s) => Done(s.node)
    case Panicked(m) => Panicked(m)
    case Diverged => Diverged
  }

  function NodesOf(o: Outcome<Parsed>): Outcome<seq<Node>> {
    match o
    case Done(p) => Done(p.nodes)
    case Panicked(m) => Panicked(m)
    case Diverged => Diverged
  }

  // ---------------------------------------------------------------------
  // Printing (classDef.String and its helpers, ast.String).  The registry
  // is the one the parse left: the ast is printed after the whole stream
  // has been parsed.

  /** One interface line. */
  function MethodLine(f: FuncDef): string {
    "\t" + f.name + " " + f.params + "\n"
  }

  function MethodLines(funcs: seq<FuncDef>): string
    decreases |funcs|
  {
    if funcs == [] then ""
    else MethodLines(funcs[..|funcs| - 1]) + MethodLine(funcs[|funcs| - 1])
  }

  /** The interface: the parent's interface embedded, then every method,
      the constructor included. */
  function InterfaceText(c: ClassDef): string {
    "type " + c.name + " interface {\n" + "\t" + c.ext + "\n" + MethodLines(c.funcs) + "}\n\n"
  }

  /** One member of the struct: its comments when it has any, then the
      member line (which carries its own line end). */
  function MemberText(m: MemberDef): string {
    (if m.comments != "" then "\t" + m.comments else "") + "\t" + m.name
  }

  function MemberLines(members: seq<MemberDef>): string
    decreases |members|
  {
    if members == [] then ""
    else MemberLines(members[..|members| - 1]) + MemberText(members[|members| - 1])
  }

  /** The struct: the parent's struct embedded, then the members. */
  function StructText(c: ClassDef): string {
    "type " + c.name + "_ struct {\n" + "\t" + c.ext + "_\n" + MemberLines(c.members) + "}\n\n"
  }

  /** The parameter list of New, from the loop at the head of outNew: the
      class's own constructor parameters, else those of the registry entry
      for its parent, "()" when there is none.  When that entry has no
      constructor parameters either, the loop reads the same entry again and
      again and never ends. */
  function NewParams(c: ClassDef, reg: Registry): (r: Outcome<string>)
    ensures !r.Panicked?
    ensures r.Diverged? <==> c.ctorParams == "" && c.ext in reg && reg[c.ext].ctorParams == ""
    ensures r.Done? ==> (r.value != [] &&
      (r.value == c.ctorParams || (c.ext in reg && r.value == reg[c.ext].ctorParams) || r.value == "()"))
  {
    if c.ctorParams != "" then Done(c.ctorParams)
    else if c.ext !in reg then Done("()")
    else if reg[c.ext].ctorParams != "" then Done(reg[c.ext].ctorParams)
    else Diverged
  }

  /** The runtime error of a slice expression s[lo:hi]. */
  function SliceError(lo: int, hi: int): string {
    if hi < 0 then "runtime error: slice bounds out of range [:" + Decimal(hi) + "]"
    else "runtime error: slice bounds out of range [" + Decimal(lo) + ":" + Decimal(hi) + "]"
  }

  /** The argument list of the constructor call: the names declared strictly
      between the first "(" and the last ")".  Without a ")", or with the
      last ")" before the first "(", the slice panics. */
  function ArgList(params: string): (r: Outcome<string>)
    ensures !r.Diverged?
    ensures r.Panicked? <==> ')' !in params || Index(params, "(") + 1 > LastIndexOf(params, ')')
  {
    var lo := Index(params, "(") + 1;
    var hi := LastIndexOf(params, ')');
    if hi < 0 || lo > hi then Panicked(SliceError(lo, hi))
    else Done(Params.VarList(params[lo..hi]))
  }

  /** The New function's text. */
  function NewText(name: string, params: string, args: string): string {
    "/**\n" + "New" + name + " creates a new " + name + " object.\n" + "*/\n" +
    "func New" + name + params + " " + name + " {\n" +
    "\tthis := " + name + "_{}\n" +
    "\tthis.Init_(&this)\n" +
    "\tthis.Construct_(" + args + ")\n" +
    "\treturn this.I_().(" + name + ")\n" +
    "}\n\n"
  }

  /** outNew */
  function OutNew(c: ClassDef, reg: Registry): (r: Outcome<string>)
    ensures r.Diverged? <==> NewParams(c, reg).Diverged?
  {
    match NewParams(c, reg)
    case Done(p) =>
      (match ArgList(p)
       case Done(a) => Done(NewText(c.name, p, a))
       case o => o)
    case o => o
  }

  /** convertBody of parser.go for the methods of class `c`. */
  function Convert(c: ClassDef): string -> string {
    s => Rewrite.LegacyConvert(s, c.name, c.ext)
  }

  /** The head of one method: receiver, name and raw parameters. */
  function FuncHead(c: ClassDef, f: FuncDef): string {
    "func (this *" + c.name + "_) " + f.name + f.params
  }

  /** One method of the class: its head and its converted body. */
  function FuncText(c: ClassDef, f: FuncDef, body: string): string {
    FuncHead(c, f) + body + "\n\n"
  }

  /** outFuncs over the first n methods, each body processed with `convert`
      (the class's convertBody); the first body with an open quote panics. */
  function FuncsText(c: ClassDef, n: nat, convert: string -> string): (r: Outcome<string>)
    requires n <= |c.funcs|
    ensures !r.Diverged?
    ensures r.Panicked? ==> r.msg == BodyScan.OpenQuote
    decreases n
  {
    if n == 0 then Done("")
    else
      var prev := FuncsText(c, n - 1, convert);
      if !prev.Done? then prev
      else
        var f := c.funcs[n - 1];
        var b := BodyScan.Processed(f.body, convert);
        if !b.Done? then b else Done(prev.value + FuncText(c, f, b.value))
  }

  /** outReflect: IsA answers true for the class's own name and otherwise
      asks the embedded parent; Class returns the name. */
  function ReflectText(c: ClassDef): string {
    var parent := Rewrite.ParentName(c.ext);
    "\nfunc (this *" + c.name + "_) IsA(className string) bool {\n" +
    "\tif (className == \"" + c.name + "\") {\n" +
    "\t\treturn true\n" +
    "\t}\n" +
    "\treturn this." + parent + "_.IsA(className)\n" +
    "}\n\n" +
    "func (this *" + c.name + "_) Class() string {\n" +
    "\treturn \"" + c.name + "\"\n" +
    "}\n"
  }

  /** classDef.String: interface, struct, New, the methods, reflection.  New
      is built before the methods, so its failure is the one seen. */
  function ClassText(c: ClassDef, reg: Registry): (r: Outcome<string>)
    ensures r.Diverged? <==> NewParams(c, reg).Diverged?
  {
    var nw := OutNew(c, reg);
    if !nw.Done? then nw
    else
      var fs := FuncsText(c, |c.funcs|, Convert(c));
      if !fs.Done? then fs
      else Done(InterfaceText(c) + StructText(c) + nw.value + fs.value + ReflectText(c))
  }

  function NodeText(n: Node, reg: Registry): Outcome<string> {
    match n
    case Stringer(s) => Done(s)
    case ClassNode(c) => ClassText(c, reg)
  }

  /** ast.String: the nodes' texts in order; the first failure stops it. */
  function AstText(nodes: seq<Node>, reg: Registry): Outcome<string>
    decreases |nodes|
  {
    if nodes == [] then Done("")
    else match AstText(nodes[..|nodes| - 1], reg)
      case Done(s) =>
        (match NodeText(nodes[|nodes| - 1], reg)
         case Done(t) => Done(s + t)
         case o => o)
      case o => o
  }

  /** The loop of outNew, then the argument list. */
  method OutNewString(c: ClassDef, reg: Registry) returns (o: Outcome<string>)
    ensures o == OutNew(c, reg)
  {
    var params := c.ctorParams;
    var rereads := 0;
    while params == ""
      invariant rereads <= 1
      invariant rereads == 0 ==> params == c.ctorParams
      invariant rereads == 1 ==> c.ctorParams == "" && c.ext in reg && params == reg[c.ext].ctorParams
      decreases 1 - rereads
    {
      if c.ext !in reg {
        params := "()";
        break;
      }
      if rereads == 1 {
        // The entry has been read once already and nothing the loop reads has
        // changed since, so every further pass repeats this one.
        return Diverged;
      }
      params := reg[c.ext].ctorParams;
      rereads := rereads + 1;
    }
    var lo := Index(params, "(") + 1;
    var hi := LastIndexOf(params, ')');
    if hi < 0 || lo > hi {
      return Panicked(SliceError(lo, hi));
    }
    var args := Params.CollectVarList(params[lo..hi]);
    var out := "/**\n" + "New" + c.name + " creates a new " + c.name + " object.\n" + "*/\n";
    out := out + "func New" + c.name + params + " " + c.name + " {\n";
    out := out + "\tthis := " + c.name + "_{}\n";
    out := out + "\tthis.Init_(&this)\n";
    out := out + "\tthis.Construct_(" + args + ")\n";
    out := out + "\treturn this.I_().(" + c.name + ")\n";
    out := out + "}\n\n";
    return Done(out);
  }

  /** Once a prefix of the methods fails, outFuncs fails the same way. */
  lemma {:induction false} FuncsTextStops(c: ClassDef, n: nat, m: nat, convert: string -> string)
    requires n <= m <= |c.funcs|
    requires !FuncsText(c, n, convert).Done?
    ensures FuncsText(c, m, convert) == FuncsText(c, n, convert)
    decreases m
  {
    if n < m {
      FuncsTextStops(c, n, m - 1, convert);
    }
  }

  /** One more method printed. */
  lemma FuncsTextStep(c: ClassDef, n: nat, convert: string -> string, s: string, b: Outcome<string>)
    requires n < |c.funcs| && FuncsText(c, n, convert) == Done(s)
    requires b == BodyScan.Processed(c.funcs[n].body, convert)
    ensures FuncsText(c, n + 1, convert) == if b.Done? then Done(s + FuncText(c, c.funcs[n], b.value)) else b
  {
  }

  /** outFuncs, with the class's convertBody as `convert`. */
  method OutFuncsString(c: ClassDef, convert: string -> string) returns (o: Outcome<string>)
    ensures o == FuncsText(c, |c.funcs|, convert)
  {
    var out := "";
    for i := 0 to |c.funcs|
      invariant FuncsText(c, i, convert) == Done(out)
    {
      var f := c.funcs[i];
      ghost var prev := out;
      out := out + FuncHead(c, f);
      var body := BodyScan.ProcessFuncBody(f.body, convert);
      FuncsTextStep(c, i, convert, prev, body);
      if !body.Done? {
        FuncsTextStops(c, i + 1, |c.funcs|, convert);
        return body;
      }
      assert out + body.value + "\n\n" == prev + FuncText(c, f, body.value);
      out := out + body.value + "\n\n";
    }
    return Done(out);
  }

  /** The interface part of classDef.String. */
  method InterfaceString(c: ClassDef) returns (out: string)
    ensures out == InterfaceText(c)
  {
    out := "type " + c.name + " interface {\n";
    out := out + "\t" + c.ext + "\n";
    ghost var head := out;
    for i := 0 to |c.funcs|
      invariant out == head + MethodLines(c.funcs[..i])
    {
      assert c.funcs[..i + 1][..i] == c.funcs[..i];
      out := out + "\t" + c.funcs[i].name + " " + c.funcs[i].params + "\n";
    }
    assert c.funcs[..|c.funcs|] == c.funcs;
    out := out + "}\n\n";
  }

  /** The struct part of classDef.String. */
  method StructString(c: ClassDef) returns (out: string)
    ensures out == StructText(c)
  {
    out := "type " + c.name + "_ struct {\n";
    out := out + "\t" + c.ext + "_\n";
    ghost var head := out;
    for i := 0 to |c.members|
      invariant out == head + MemberLines(c.members[..i])
    {
      assert c.members[..i + 1][..i] == c.members[..i];
      var m := c.members[i];
      if m.comments != "" {
        out := out + "\t" + m.comments;
      }
      out := out + "\t" + m.name;
    }
    assert c.members[..|c.members|] == c.members;
    out := out + "}\n\n";
  }

  /** classDef.String */
  method ClassString(c: ClassDef, reg: Registry) returns (o: Outcome<string>)
    ensures o == ClassText(c, reg)
  {
    var out := InterfaceString(c);
    var st := StructString(c);
    out := out + st;
    var nw := OutNewString(c, reg);
    if !nw.Done? {
      return nw;
    }
    var fs := OutFuncsString(c, Convert(c));
    if !fs.Done? {
      return fs;
    }
    out := out + nw.value + fs.value + ReflectText(c);
    return Done(out);
  }

  /** Once a prefix of the ast fails to print, the whole ast fails the same way. */
  lemma {:induction false} AstTextStops(nodes: seq<Node>, reg: Registry, n: nat)
    requires n <= |nodes|
    requires !AstText(nodes[..n], reg).Done?
    ensures AstText(nodes, reg) == AstText(nodes[..n], reg)
    decreases |nodes|
  {
    if n < |nodes| {
      var init := nodes[..|nodes| - 1];
      assert init[..n] == nodes[..n];
      AstTextStops(init, reg, n);
    } else {
      assert nodes[..n] == nodes;
    }
  }

  /** ast.String */
  method AstString(nodes: seq<Node>, reg: Registry) returns (o: Outcome<string>)
    ensures o == AstText(nodes, reg)
  {
    var out := "";
    for i := 0 to |nodes|
      invariant AstText(nodes[..i], reg) == Done(out)
    {
      assert nodes[..i + 1][..i] == nodes[..i];
      match nodes[i]
      case Stringer(s) =>
        out := out + s;
      case ClassNode(c) =>
        var t := ClassString(c, reg);
        if !t.Done? {
          AstTextStops(nodes, reg, i + 1);
          return t;
        }
        out := out + t.value;
    }
    assert nodes[..|nodes|] == nodes;
    return Done(out);
  }
}
