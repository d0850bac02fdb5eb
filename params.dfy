/**
  The argument list both generators derive from a constructor's parameter
  list (parser.go:227-235, gopp/parser.go:236-243): the text is split at
  commas, the first white-space separated word of each piece is kept (blank
  pieces are skipped) and the words are joined with commas.
 */
module Params {
  import opened GoStrings

  /** The first word of each piece, in order, skipping pieces that are blank. */
  function FirstWords(pieces: seq<string>): (r: seq<string>)
    ensures |r| <= |pieces|
    ensures forall i :: 0 <= i < |r| ==> r[i] != [] && forall k :: 0 <= k < |r[i]| ==> !IsWhite(r[i][k])
    decreases |pieces|
  {
    if pieces == [] then []
    else
      var init := FirstWords(pieces[..|pieces| - 1]);
      match FirstField(pieces[|pieces| - 1])
      case Some(w) => init + [w]
      case None => init
  }

  /** The argument list for a parameter list. */
  function VarList(params: string): (r: string)
    ensures forall i :: 0 <= i < |r| ==> !IsWhite(r[i])
  {
    var ws := FirstWords(Split(params, ','));
    JoinWords(ws);
    Join(ws, ",")
  }

  /** Words without white space, joined by commas, hold no white space. */
  lemma {:induction false} JoinWords(ws: seq<string>)
    requires forall i :: 0 <= i < |ws| ==> forall k :: 0 <= k < |ws[i]| ==> !IsWhite(ws[i][k])
    ensures forall i :: 0 <= i < |Join(ws, ",")| ==> !IsWhite(Join(ws, ",")[i])
    decreases |ws|
  {
    if |ws| > 1 {
      JoinWords(ws[1..]);
      var t := Join(ws[1..], ",");
      assert Join(ws, ",") == ws[0] + "," + t;
      forall i | 0 <= i < |Join(ws, ",")|
        ensures !IsWhite(Join(ws, ",")[i])
      {
        if i < |ws[0]| {
          assert Join(ws, ",")[i] == ws[0][i];
        } else if i > |ws[0]| {
          assert Join(ws, ",")[i] == t[i - |ws[0]| - 1];
        }
      }
    }
  }

  /** The loop that collects the names. */
  method CollectVarList(params: string) returns (list: string)
    ensures list == VarList(params)
  {
    var pieces := Split(params, ',');
    var vars: seq<string> := [];
    for i := 0 to |pieces|
      invariant vars == FirstWords(pieces[..i])
    {
      assert pieces[..i + 1][..i] == pieces[..i];
      var fields := FirstField(pieces[i]);
      if fields.Some? {
        vars := vars + [fields.value];
      }
    }
    assert pieces[..|pieces|] == pieces;
    list := Join(vars, ",");
  }

  /** Piece i of a declaration list: white space, the parameter's name, then
      nothing or white space and its type. */
  predicate Declares(lead: string, name: string, tail: string) {
    (forall k :: 0 <= k < |lead| ==> IsWhite(lead[k])) &&
    name != [] && (forall k :: 0 <= k < |name| ==> !IsWhite(name[k])) &&
    (tail == [] || IsWhite(tail[0])) &&
    ',' !in lead && ',' !in name && ',' !in tail
  }

  /** The pieces of a declaration list whose pieces declare `names`. */
  function Decls(leads: seq<string>, names: seq<string>, tails: seq<string>): (r: seq<string>)
    requires |leads| == |names| == |tails|
    ensures |r| == |names|
  {
    seq(|names|, i requires 0 <= i < |names| => leads[i] + names[i] + tails[i])
  }

  /** The argument list of a declaration list such as "a int, b string" is
      the list of the declared names, "a,b". */
  lemma VarListOfDecls(leads: seq<string>, names: seq<string>, tails: seq<string>)
    requires |leads| == |names| == |tails| >= 1
    requires forall i :: 0 <= i < |names| ==> Declares(leads[i], names[i], tails[i])
    ensures VarList(Join(Decls(leads, names, tails), ",")) == Join(names, ",")
  {
    var pieces := Decls(leads, names, tails);
    forall i | 0 <= i < |pieces|
      ensures ',' !in pieces[i]
    {
      assert Declares(leads[i], names[i], tails[i]);
    }
    SplitJoin(pieces, ',');
    FirstWordsOfDecls(leads, names, tails);
  }

  lemma {:induction false} FirstWordsOfDecls(leads: seq<string>, names: seq<string>, tails: seq<string>)
    requires |leads| == |names| == |tails|
    requires forall i :: 0 <= i < |names| ==> Declares(leads[i], names[i], tails[i])
    ensures FirstWords(Decls(leads, names, tails)) == names
    decreases |names|
  {
    if names != [] {
      var n := |names| - 1;
      var pieces := Decls(leads, names, tails);
      assert pieces[..n] == Decls(leads[..n], names[..n], tails[..n]);
      FirstWordsOfDecls(leads[..n], names[..n], tails[..n]);
      assert Declares(leads[n], names[n], tails[n]);
      FirstFieldOf(leads[n], names[n], tails[n]);
      assert names[..n] + [names[n]] == names;
    }
  }
}
