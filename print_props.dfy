/**
  What classDef.String hands to the template of the newer generator: the
  processed method bodies, the argument list of the constructor call, and
  the interface's method filter.
 */
module PrintProperties {
  import opened GoStrings
  import opened Items
  import Params
  import BodyScan
  import opened Gopp

  // ---------------------------------------------------------------------
  // What printing hands to the template

  /** The body of method `f` can be processed. */
  predicate Processes(f: FuncDef, convert: string -> string) {
    BodyOut(f.body, convert).Done?
  }

  /** Every method body of `fs` can be processed. */
  predicate Processable(fs: seq<FuncDef>, convert: string -> string) {
    forall i :: 0 <= i < |fs| ==> Processes(fs[i], convert)
  }

  /** The loop over the methods succeeds exactly when every body can be
      processed. */
  lemma {:induction false} FuncsOutDone(fs: seq<FuncDef>, convert: string -> string)
    ensures FuncsOut(fs, convert).Done? <==> Processable(fs, convert)
    decreases |fs|
  {
    if fs != [] {
      var n := |fs| - 1;
      FuncsOutDone(fs[..n], convert);
      assert fs == fs[..n] + [fs[n]];
      ProcessableSnoc(fs[..n], fs[n], convert);
    }
  }

  lemma ProcessableSnoc(fs: seq<FuncDef>, f: FuncDef, convert: string -> string)
    ensures Processable(fs + [f], convert) <==> Processable(fs, convert) && Processes(f, convert)
  {
    var gs := fs + [f];
    assert forall i :: 0 <= i < |fs| ==> gs[i] == fs[i];
    assert gs[|fs|] == f;
  }

  /** Method `f` with its body processed. */
  function Filled(f: FuncDef, convert: string -> string): FuncDef
    requires Processes(f, convert)
  {
    f.(processedBody := BodyOut(f.body, convert).value)
  }

  /** `out` is `fs` with every method's body processed. */
  predicate FilledBy(out: seq<FuncDef>, fs: seq<FuncDef>, convert: string -> string) {
    |out| == |fs| && forall i :: 0 <= i < |fs| ==> Processes(fs[i], convert) && out[i] == Filled(fs[i], convert)
  }

  /** When the loop over the methods succeeds, each method keeps its fields
      and gets its own processed body. */
  lemma {:induction false} FuncsOutEach(fs: seq<FuncDef>, convert: string -> string)
    requires FuncsOut(fs, convert).Done?
    ensures FilledBy(FuncsOut(fs, convert).value, fs, convert)
    decreases |fs|
  {
    if fs != [] {
      var n := |fs| - 1;
      FuncsOutEach(fs[..n], convert);
      FilledSnoc(FuncsOut(fs[..n], convert).value, fs, convert);
    }
  }

  lemma FilledSnoc(out: seq<FuncDef>, fs: seq<FuncDef>, convert: string -> string)
    requires fs != [] && FilledBy(out, fs[..|fs| - 1], convert) && Processes(fs[|fs| - 1], convert)
    ensures FilledBy(out + [Filled(fs[|fs| - 1], convert)], fs, convert)
  {
    var n := |fs| - 1;
    var out2 := out + [Filled(fs[n], convert)];
    forall i | 0 <= i < |fs|
      ensures Processes(fs[i], convert) && out2[i] == Filled(fs[i], convert)
    {
      if i < n {
        assert fs[..n][i] == fs[i];
        assert Processes(fs[..n][i], convert) && out[i] == Filled(fs[..n][i], convert);
        assert out2[i] == out[i];
      } else {
        assert out2[i] == Filled(fs[n], convert);
      }
    }
  }

  /** Printing a class fails exactly when some method body has a quote that
      is never closed, and then with that panic. */
  lemma PrintedFails(d: ClassDef)
    ensures Printed(d).Done? <==> Processable(d.funcs, ConvertFor(d.receiver, d.name, d.ext))
    ensures !Printed(d).Done? ==> Printed(d) == Panicked(BodyScan.OpenQuote)
  {
    var convert := ConvertFor(d.receiver, d.name, d.ext);
    FuncsOutDone(d.funcs, convert);
    if !FuncsOut(d.funcs, convert).Done? {
      FuncsOutPanics(d.funcs, convert);
    }
  }

  /** A loop over the methods that fails panics as processFuncBody does. */
  lemma {:induction false} FuncsOutPanics(fs: seq<FuncDef>, convert: string -> string)
    requires !FuncsOut(fs, convert).Done?
    ensures FuncsOut(fs, convert) == Panicked(BodyScan.OpenQuote)
    decreases |fs|
  {
    var n := |fs| - 1;
    if FuncsOut(fs[..n], convert).Done? {
      assert !BodyOut(fs[n].body, convert).Done?;
    } else {
      FuncsOutPanics(fs[..n], convert);
    }
  }

  /** What the template is handed: the class's own fields, the argument list
      of the constructor call made of the constructor's parameter names, and
      every method with its body processed. */
  lemma PreparedFields(d: ClassDef)
    requires Printed(d).Done?
    ensures var p := Prepared(d).value;
      p == d.(parentVarList := Params.VarList(d.ctorParams), funcs := p.funcs) &&
      FilledBy(p.funcs, d.funcs, ConvertFor(d.receiver, d.name, d.ext))
  {
    FuncsOutEach(d.funcs, ConvertFor(d.receiver, d.name, d.ext));
  }

  /** The New function of the printed class calls the constructor with the
      names of the constructor's parameters. */
  lemma PrintedCallsConstruct(d: ClassDef)
    requires Printed(d).Done?
    ensures Contains(Printed(d).value, d.receiver + ".Construct(" + Params.VarList(d.ctorParams) + ")")
  {
    var p := Prepared(d).value;
    assert ConstructCall(p) == d.receiver + ".Construct(" + Params.VarList(d.ctorParams) + ")";
    TemplateCallsConstruct(p);
  }

  /** The rendered text holds the constructor call with the class's argument
      list. */
  lemma TemplateCallsConstruct(p: ClassDef)
    ensures Contains(Template(p), p.receiver + ".Construct(" + p.parentVarList + ")")
  {
    var call := ConstructCall(p);
    ContainsSelf(call);
    ContainsLeft(NewOpen(p), call, call);
    ContainsRight(NewOpen(p) + call, NewReturn(p), call);
    var head := InterfaceDecl(p) + StructDecl(p);
    ContainsLeft(head, NewFunc(p), call);
    var methods := MethodTexts(p.receiver, p.name, p.funcs);
    ContainsRight(head + NewFunc(p), methods, call);
    ContainsRight(head + NewFunc(p) + methods, ClassMethods(p), call);
  }

  /** The interface filter: a method is listed in the interface, on a line
      of its own, wherever it stands among the methods, when it is neither
      the constructor nor an override. */
  lemma InterfaceListsDeclared(a: seq<FuncDef>, f: FuncDef, b: seq<FuncDef>)
    requires Declared(f)
    ensures Contains(InterfaceLines(a + [f] + b), "\n\t" + f.name + f.params)
  {
    var line := InterfaceLine(f);
    InterfaceLinesAt(a, f, b);
    ContainsSelf(line);
    ContainsLeft(InterfaceLines(a) + " ", line, line);
    ContainsRight(InterfaceLines(a) + " " + line, InterfaceLines(b), line);
  }

  /** The interface lines around one method. */
  lemma InterfaceLinesAt(a: seq<FuncDef>, f: FuncDef, b: seq<FuncDef>)
    ensures InterfaceLines(a + [f] + b) == InterfaceLines(a) + " " + InterfaceLine(f) + InterfaceLines(b)
  {
    assert (a + [f])[..|a|] == a;
    InterfaceLinesAppend(a + [f], b);
  }

  lemma {:induction false} InterfaceLinesAppend(a: seq<FuncDef>, b: seq<FuncDef>)
    ensures InterfaceLines(a + b) == InterfaceLines(a) + InterfaceLines(b)
    decreases |b|
  {
    if b == [] {
      assert a + b == a;
    } else {
      assert (a + b)[..|a + b| - 1] == a + b[..|b| - 1];
      InterfaceLinesAppend(a, b[..|b| - 1]);
    }
  }

  /** The number of line breaks in a text. */
  function Lines(s: string): nat
    decreases |s|
  {
    if s == [] then 0 else Lines(s[..|s| - 1]) + (if s[|s| - 1] == '\n' then 1 else 0)
  }

  lemma {:induction false} LinesAppend(a: string, b: string)
    ensures Lines(a + b) == Lines(a) + Lines(b)
    decreases |b|
  {
    if b == [] {
      assert a + b == a;
    } else {
      assert (a + b)[..|a + b| - 1] == a + b[..|b| - 1];
      LinesAppend(a, b[..|b| - 1]);
    }
  }

  /** The methods the interface declares. */
  function DeclaredCount(fs: seq<FuncDef>): nat
    decreases |fs|
  {
    if fs == [] then 0 else DeclaredCount(fs[..|fs| - 1]) + (if Declared(fs[|fs| - 1]) then 1 else 0)
  }

  /** With names and parameter lists on one line each (as the lexer makes
      them), the interface has one line per declared method and no other:
      the constructor and the overrides are left out. */
  lemma {:induction false} InterfaceLineCount(fs: seq<FuncDef>)
    requires forall i :: 0 <= i < |fs| ==> '\n' !in fs[i].name && '\n' !in fs[i].params
    ensures Lines(InterfaceLines(fs)) == DeclaredCount(fs)
    decreases |fs|
  {
    if fs != [] {
      var n := |fs| - 1;
      var f := fs[n];
      InterfaceLineCount(fs[..n]);
      var tail := InterfaceLine(f);
      assert Lines(tail) == if Declared(f) then 1 else 0 by {
        if Declared(f) {
          NoLines(f.name);
          NoLines(f.params);
          assert Lines("\n\t") == 1 by { assert "\n\t"[..1] == "\n"; assert "\n"[..0] == []; }
          LinesAppend("\n\t", f.name);
          LinesAppend("\n\t" + f.name, f.params);
        } else {
          assert tail == [];
        }
      }
      assert Lines(" ") == 0 by { assert " "[..0] == []; }
      LinesAppend(InterfaceLines(fs[..n]), " ");
      LinesAppend(InterfaceLines(fs[..n]) + " ", tail);
      assert InterfaceLines(fs) == InterfaceLines(fs[..n]) + " " + tail;
    }
  }

  lemma {:induction false} NoLines(s: string)
    requires '\n' !in s
    ensures Lines(s) == 0
    decreases |s|
  {
    if s != [] {
      NoLines(s[..|s| - 1]);
    }
  }

  /** processFuncBody cuts every brace and blank off both ends of a body
      with no quote, slash, `this.` or `parent::`: the braces of a nested
      block that ends the body go too, so with `tail` = " } }" the body
      "{ if x { y } }" comes out as "if x { y". */
  lemma BodyTrimmed(lead: string, mid: string, tail: string, receiver: string, name: string, ext: string)
    requires BodyScan.AllPlain(lead + mid + tail)
    requires !Contains(lead + mid + tail, "this.") && !Contains(lead + mid + tail, "parent::")
    requires forall i :: 0 <= i < |lead| ==> lead[i] in BraceCut
    requires forall i :: 0 <= i < |tail| ==> tail[i] in BraceCut
    requires mid != [] && mid[0] !in BraceCut && mid[|mid| - 1] !in BraceCut
    requires !IsWhite(mid[0]) && !IsWhite(mid[|mid| - 1])
    ensures BodyOut(lead + mid + tail, ConvertFor(receiver, name, ext)) == Done(mid)
  {
    var body := lead + mid + tail;
    BodyScan.PlainBody(body, ConvertFor(receiver, name, ext));
    TrimAround(lead, mid, tail, BraceCut);
    TrimAround("", mid, "", WhiteSet);
    assert "" + mid + "" == mid;
  }
}
