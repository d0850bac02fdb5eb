/**
  What the body rewrites of both generators do to a whole text: a text cut
  at points no pattern can reach across is rewritten piece by piece, and
  each kind of piece - a field of `this`, a call on `this`, a use of
  `parent::` - has its own fixed image.  Together these show the effect of
  the order convertBody applies its rewrites in.
 */
module RewriteProperties {
  import opened GoStrings
  import opened Rewrite

  // ---------------------------------------------------------------------
  // Rewriting piece by piece

  /** A seam keeps every pattern's characters, except a final ".", away
      from its left side. */
  lemma SeamChars(x: char, y: char)
    requires Seam(x, y)
    ensures x !in "this."[..4] && x !in "parent::"[..7] && x != "this."[4] && x != "parent::"[7]
  {
  }

  /** The call rewrite followed by two replacements splits at a seam whose
      left character neither pattern holds, or holds last. */
  lemma RewritesSplit(a: string, b: string, pre: string, p: string, r: string, q: string, u: string)
    requires a != [] && b != [] && Seam(a[|a| - 1], b[0]) && p != [] && q != []
    requires a[|a| - 1] !in p[..|p| - 1] && a[|a| - 1] != p[|p| - 1]
    requires a[|a| - 1] !in q[..|q| - 1] && a[|a| - 1] != q[|q| - 1]
    ensures ReplaceAll(ReplaceAll(ReplaceCalls(a + b, pre), p, r), q, u)
      == ReplaceAll(ReplaceAll(ReplaceCalls(a, pre), p, r), q, u)
       + ReplaceAll(ReplaceAll(ReplaceCalls(b, pre), p, r), q, u)
  {
    ReplaceCallsSplit(a, b, pre);
    ReplaceCallsKeepsLast(a, pre);
    ReplaceTwiceSeam(ReplaceCalls(a + b, pre), ReplaceCalls(a, pre), ReplaceCalls(b, pre), a[|a| - 1], p, r, q, u);
  }

  /** convertBody of gopp/parser.go rewrites two pieces joined at a seam one
      by one: none of its three rewrites reaches across. */
  lemma GoppSplit(a: string, b: string, receiver: string, name: string, ext: string)
    requires a != [] && b != [] ==> Seam(a[|a| - 1], b[0])
    ensures GoppConvert(a + b, receiver, name, ext)
      == GoppConvert(a, receiver, name, ext) + GoppConvert(b, receiver, name, ext)
  {
    if a == [] {
      assert a + b == b;
    } else if b == [] {
      assert a + b == a;
    } else {
      SeamChars(a[|a| - 1], b[0]);
      RewritesSplit(a, b, GoppCallPrefix(receiver, name),
        "parent::", receiver + "." + ParentName(ext) + ".", "this.", receiver + ".");
    }
  }

  /** The same for convertBody of parser.go, whose last step is the
      replacement of `parent::`. */
  lemma LegacySplit(a: string, b: string, name: string, ext: string)
    requires a != [] && b != [] ==> Seam(a[|a| - 1], b[0])
    ensures LegacyConvert(a + b, name, ext) == LegacyConvert(a, name, ext) + LegacyConvert(b, name, ext)
  {
    if a == [] {
      assert a + b == b;
    } else if b == [] {
      assert a + b == a;
    } else {
      var pre := LegacyCallPrefix(name);
      SeamChars(a[|a| - 1], b[0]);
      ReplaceCallsSplit(a, b, pre);
      ReplaceCallsKeepsLast(a, pre);
      ReplaceAllSeam(ReplaceCalls(a + b, pre), ReplaceCalls(a, pre), ReplaceCalls(b, pre), a[|a| - 1],
        "parent::", "this." + ParentName(ext) + "_.");
    }
  }

  // ---------------------------------------------------------------------
  // Where the patterns can occur

  /** Every "this." holds a "." at its fifth character. */
  lemma ThisNeedsDot(s: string)
    ensures Contains(s, "this.") ==> exists k :: 4 <= k < |s| && s[k] == '.'
  {
    if Contains(s, "this.") {
      var j := Index(s, "this.");
      assert s[j..][..5][4] == s[j + 4];
    }
  }

  /** Every "parent::" holds two ":" in a row. */
  lemma ParentNeedsColons(s: string)
    ensures Contains(s, "parent::") ==> exists k :: 0 <= k < |s| - 1 && s[k] == ':' && s[k + 1] == ':'
  {
    if Contains(s, "parent::") {
      var j := Index(s, "parent::");
      assert s[j..][..8][6] == s[j + 6] && s[j..][..8][7] == s[j + 7];
    }
  }

  /** A name and one character after it hold neither pattern, unless that
      character is the "." of a `this.` the name ends. */
  lemma NameHoldsNoPattern(w: string, t: char)
    requires IsWord(w) && t != '.'
    ensures !Contains(w + [t], "this.") && !Contains(w + [t], "parent::")
  {
    ContainsChar(w + [t], "this.", 4);
    ParentNeedsColons(w + [t]);
  }

  /** A field of `this` opens no call. */
  lemma FieldNoCall(w: string, t: char)
    requires w != [] && IsWord(w) && !IsWordChar(t) && t != '('
    ensures CallAt("this." + w + [t]).None?
  {
    var s := "this." + w + [t];
    assert s[..5] == "this.";
    WordEndAt(s, 5, 5 + |w|);
  }

  /** Past its first character a field of `this` holds no `this.`. */
  lemma FieldTailClear(w: string, t: char)
    requires IsWord(w) && t != '.'
    ensures !Contains(("this." + w + [t])[1..], "this.")
  {
    var s := "this." + w + [t];
    var s' := s[1..];
    ThisNeedsDot(s');
    assert forall k :: 4 <= k < |s'| ==> s'[k] == s[k + 1];
  }

  /** A field of `this` - the keyword, a name and a character that opens
      no call - matches no call. */
  lemma FieldCopied(w: string, t: char, pre: string)
    requires w != [] && IsWord(w) && !IsWordChar(t) && t != '(' && t != '.'
    ensures ReplaceCalls("this." + w + [t], pre) == "this." + w + [t]
  {
    var s := "this." + w + [t];
    FieldNoCall(w, t);
    FieldTailClear(w, t);
    assert [s[0]] + s[1..] == s;
  }

  // ---------------------------------------------------------------------
  // The image of each kind of piece

  /** A field of `this` holds no `parent::`. */
  lemma FieldHoldsNoParent(w: string, t: char)
    requires IsWord(w)
    ensures !Contains("this." + w + [t], "parent::")
  {
    var s := "this." + w + [t];
    ParentNeedsColons(s);
    assert forall k :: 0 <= k < |s| - 1 ==> s[k] != ':' || s[k + 1] != ':';
  }

  /** gopp/parser.go: a field of `this` is reached through the receiver. */
  lemma GoppFieldRewritten(w: string, t: char, receiver: string, name: string, ext: string)
    requires w != [] && IsWord(w) && !IsWordChar(t) && t != '(' && t != '.'
    ensures GoppConvert("this." + w + [t], receiver, name, ext) == receiver + "." + w + [t]
  {
    var s := "this." + w + [t];
    FieldCopied(w, t, GoppCallPrefix(receiver, name));
    FieldHoldsNoParent(w, t);
    assert s == "this." + (w + [t]);
    ReplaceAllFront("this.", w + [t], receiver + ".");
    NameHoldsNoPattern(w, t);
  }

  /** parser.go: a field of `this` stays as it is, the struct's own field. */
  lemma LegacyFieldKept(w: string, t: char, name: string, ext: string)
    requires w != [] && IsWord(w) && !IsWordChar(t) && t != '(' && t != '.'
    ensures LegacyConvert("this." + w + [t], name, ext) == "this." + w + [t]
  {
    FieldCopied(w, t, LegacyCallPrefix(name));
    FieldHoldsNoParent(w, t);
  }

  /** The first two rewrites of either file leave a `parent::` followed by a
      name to the second, which puts `up` in its place. */
  lemma ParentReplaced(w: string, t: char, pre: string, up: string)
    requires IsWord(w) && t != '.'
    ensures ReplaceAll(ReplaceCalls("parent::" + w + [t], pre), "parent::", up) == up + (w + [t])
  {
    var s := "parent::" + w + [t];
    ContainsChar(s, "this.", 4);
    assert s == "parent::" + (w + [t]);
    ReplaceAllFront("parent::", w + [t], up);
    NameHoldsNoPattern(w, t);
  }

  /** A text that ends in "." and holds no `this.` followed by a name:
      the last rewrite of gopp/parser.go finds nothing in the join. */
  lemma ThisAbsentJoin(up: string, v: string, rep: string)
    requires up != [] && up[|up| - 1] == '.' && !Contains(up, "this.") && !Contains(v, "this.")
    ensures ReplaceAll(up + v, "this.", rep) == up + v
  {
    NoStraddleAt(up, v, "this.");
    ReplaceAllSplit(up, v, "this.", rep);
  }

  /** gopp/parser.go: `parent::` becomes the embedded parent reached through
      the receiver, and the last rewrite leaves that alone when it holds no
      `this.` of its own. */
  lemma GoppParentRewritten(w: string, t: char, receiver: string, name: string, ext: string)
    requires IsWord(w) && t != '.'
    requires !Contains(receiver + "." + ParentName(ext) + ".", "this.")
    ensures GoppConvert("parent::" + w + [t], receiver, name, ext)
      == receiver + "." + ParentName(ext) + "." + w + [t]
  {
    var up := receiver + "." + ParentName(ext) + ".";
    ParentReplaced(w, t, GoppCallPrefix(receiver, name), up);
    NameHoldsNoPattern(w, t);
    ThisAbsentJoin(up, w + [t], receiver + ".");
    Reassociate(up, w, [t]);
  }

  /** parser.go: `parent::` becomes the embedded parent struct of `this`. */
  lemma LegacyParentRewritten(w: string, t: char, name: string, ext: string)
    requires IsWord(w) && t != '.'
    ensures LegacyConvert("parent::" + w + [t], name, ext) == "this." + ParentName(ext) + "_." + w + [t]
  {
    var up := "this." + ParentName(ext) + "_.";
    ParentReplaced(w, t, LegacyCallPrefix(name), up);
    Reassociate(up, w, [t]);
  }

  // ---------------------------------------------------------------------
  // A body in pieces

  /** The pieces of a body, in order, joined. */
  function Concat(ps: seq<string>): string {
    if ps == [] then [] else Concat(ps[..|ps| - 1]) + ps[|ps| - 1]
  }

  /** Non-empty pieces with a seam between each two. */
  predicate Seams(ps: seq<string>) {
    (forall i :: 0 <= i < |ps| ==> ps[i] != []) &&
    forall i :: 0 <= i < |ps| - 1 ==> Seam(ps[i][|ps[i]| - 1], ps[i + 1][0])
  }

  /** Each piece's image under convertBody of gopp/parser.go. */
  function GoppEach(ps: seq<string>, receiver: string, name: string, ext: string): (r: seq<string>)
    ensures |r| == |ps|
  {
    seq(|ps|, i requires 0 <= i < |ps| => GoppConvert(ps[i], receiver, name, ext))
  }

  /** Each piece's image under convertBody of parser.go. */
  function LegacyEach(ps: seq<string>, name: string, ext: string): (r: seq<string>)
    ensures |r| == |ps|
  {
    seq(|ps|, i requires 0 <= i < |ps| => LegacyConvert(ps[i], name, ext))
  }

  /** The images of all pieces but the last, and the last one's. */
  lemma GoppEachInit(ps: seq<string>, receiver: string, name: string, ext: string)
    requires ps != []
    ensures var r := GoppEach(ps, receiver, name, ext); var n := |ps| - 1;
      Concat(r) == Concat(GoppEach(ps[..n], receiver, name, ext)) + GoppConvert(ps[n], receiver, name, ext)
  {
    var r := GoppEach(ps, receiver, name, ext);
    assert r[..|ps| - 1] == GoppEach(ps[..|ps| - 1], receiver, name, ext);
  }

  lemma LegacyEachInit(ps: seq<string>, name: string, ext: string)
    requires ps != []
    ensures var r := LegacyEach(ps, name, ext); var n := |ps| - 1;
      Concat(r) == Concat(LegacyEach(ps[..n], name, ext)) + LegacyConvert(ps[n], name, ext)
  {
    var r := LegacyEach(ps, name, ext);
    assert r[..|ps| - 1] == LegacyEach(ps[..|ps| - 1], name, ext);
  }

  /** Joined non-empty pieces end the way the last piece does. */
  lemma {:induction false} ConcatLast(ps: seq<string>)
    requires ps != [] && ps[|ps| - 1] != []
    ensures var c := Concat(ps); c != [] && c[|c| - 1] == ps[|ps| - 1][|ps[|ps| - 1]| - 1]
  {
  }

  /** Pieces cut at seams keep their seams when the last one is dropped. */
  lemma SeamsInit(ps: seq<string>)
    requires ps != [] && Seams(ps)
    ensures Seams(ps[..|ps| - 1])
  {
  }

  /** convertBody of gopp/parser.go, on a body cut at seams, is the join of
      what it makes of each piece. */
  lemma {:induction false} GoppPieces(ps: seq<string>, receiver: string, name: string, ext: string)
    requires Seams(ps)
    ensures GoppConvert(Concat(ps), receiver, name, ext) == Concat(GoppEach(ps, receiver, name, ext))
  {
    if ps != [] {
      var init := ps[..|ps| - 1];
      SeamsInit(ps);
      GoppPieces(init, receiver, name, ext);
      if init != [] {
        ConcatLast(init);
      }
      GoppSplit(Concat(init), ps[|ps| - 1], receiver, name, ext);
      GoppEachInit(ps, receiver, name, ext);
    }
  }

  /** The same for convertBody of parser.go. */
  lemma {:induction false} LegacyPieces(ps: seq<string>, name: string, ext: string)
    requires Seams(ps)
    ensures LegacyConvert(Concat(ps), name, ext) == Concat(LegacyEach(ps, name, ext))
  {
    if ps != [] {
      var init := ps[..|ps| - 1];
      SeamsInit(ps);
      LegacyPieces(init, name, ext);
      if init != [] {
        ConcatLast(init);
      }
      LegacySplit(Concat(init), ps[|ps| - 1], name, ext);
      LegacyEachInit(ps, name, ext);
    }
  }

  /** Two pieces met at a seam, rewritten piece by piece by convertBody of
      gopp/parser.go; the join ends where its second piece ends. */
  lemma GoppJoin(a: string, b: string, x: char, pa: string, pb: string, receiver: string, name: string, ext: string)
    requires a != [] && b != [] && a[|a| - 1] == x && Seam(x, b[0])
    requires GoppConvert(a, receiver, name, ext) == pa && GoppConvert(b, receiver, name, ext) == pb
    ensures GoppConvert(a + b, receiver, name, ext) == pa + pb
    ensures (a + b)[|a + b| - 1] == b[|b| - 1]
  {
    GoppSplit(a, b, receiver, name, ext);
  }

  /** The same for convertBody of parser.go. */
  lemma LegacyJoin(a: string, b: string, x: char, pa: string, pb: string, name: string, ext: string)
    requires a != [] && b != [] && a[|a| - 1] == x && Seam(x, b[0])
    requires LegacyConvert(a, name, ext) == pa && LegacyConvert(b, name, ext) == pb
    ensures LegacyConvert(a + b, name, ext) == pa + pb
    ensures (a + b)[|a + b| - 1] == b[|b| - 1]
  {
    LegacySplit(a, b, name, ext);
  }

  // ---------------------------------------------------------------------
  // The order, on one body
  //
  // The body `this.x = parent::Foo(this.y (1), this.z)` of a class Dog
  // extending pkg.Animal, with receiver d_, in its six pieces: a field, a
  // blank text, a call on the parent, a call on `this` with a blank before
  // its parenthesis, a blank text and a second field.

  /** The call gopp/parser.go writes holds no pattern when the names it is
      made of hold neither an `h` nor a colon. */
  lemma GoppCallClear(receiver: string, name: string, w: string)
    requires 'h' !in receiver && 'h' !in name && 'h' !in w
    requires ':' !in receiver && ':' !in name && ':' !in w
    ensures !Contains(GoppCallPrefix(receiver, name) + w + "(", "this.")
    ensures !Contains(GoppCallPrefix(receiver, name) + w + "(", "parent::")
  {
    NoH(GoppCallPrefix(receiver, name) + w + "(");
    NoColon(GoppCallPrefix(receiver, name) + w + "(");
  }

  /** So does the embedded parent it writes, when neither name holds an `h`. */
  lemma GoppParentClear(receiver: string, parent: string)
    requires 'h' !in receiver && 'h' !in parent
    ensures !Contains(receiver + "." + parent + ".", "this.")
  {
    NoH(receiver + "." + parent + ".");
  }

  lemma NoH(s: string)
    requires 'h' !in s
    ensures !Contains(s, "this.")
  {
    ContainsChar(s, "this.", 1);
  }

  lemma NoColon(s: string)
    requires ':' !in s
    ensures !Contains(s, "parent::")
  {
    ContainsChar(s, "parent::", 6);
  }

  /** The same for the call rewrite of parser.go. */
  lemma LegacyWritesClear(name: string, w: string)
    requires ':' !in name && ':' !in w
    ensures !Contains(LegacyCallPrefix(name) + w + "(", "parent::")
  {
    NoColon(LegacyCallPrefix(name) + w + "(");
  }

  /** The pieces that hold no pattern are left alone by both rewrites. */
  lemma PlainPieces(receiver: string, name: string, ext: string)
    ensures GoppConvert("= ", receiver, name, ext) == "= " && LegacyConvert("= ", name, ext) == "= "
    ensures GoppConvert("1), ", receiver, name, ext) == "1), " && LegacyConvert("1), ", name, ext) == "1), "
  {
    ContainsChar("= ", "this.", 1);
    ContainsChar("= ", "parent::", 6);
    ContainsChar("1), ", "this.", 1);
    ContainsChar("1), ", "parent::", 6);
  }

  /** gopp/parser.go on the front of the body: a field, a blank text and a
      call on the parent. */
  lemma GoppFront(x: string, m: string, r: string, n: string, pkg: string, par: string)
    requires x != [] && IsWord(x) && IsWord(m)
    requires 'h' !in r && 'h' !in par && '.' !in pkg && '.' !in par
    ensures var s := ("this." + x + [' ']) + "= " + ("parent::" + m + ['(']);
      GoppConvert(s, r, n, pkg + "." + par) == (r + "." + x + [' ']) + "= " + (r + "." + par + "." + m + ['('])
      && s[|s| - 1] == '('
  {
    var e := pkg + "." + par;
    GoppFieldRewritten(x, ' ', r, n, e);
    PlainPieces(r, n, e);
    ParentNameQualified(pkg, par);
    GoppParentClear(r, par);
    GoppParentRewritten(m, '(', r, n, e);
    var a, b, c := "this." + x + [' '], "= ", "parent::" + m + ['('];
    var pa := r + "." + x + [' '];
    GoppJoin(a, b, ' ', pa, b, r, n, e);
    GoppJoin(a + b, c, ' ', pa + b, r + "." + par + "." + m + ['('], r, n, e);
  }

  /** gopp/parser.go on the back of the body: a call on `this` with a blank
      before its parenthesis, a blank text and a field. */
  lemma GoppBack(y: string, z: string, r: string, n: string, ext: string)
    requires y != [] && IsWord(y) && z != [] && IsWord(z)
    requires 'h' !in r && 'h' !in n && 'h' !in y && ':' !in r && ':' !in n && ':' !in y
    ensures GoppConvert(("this." + y + " " + "(") + "1), " + ("this." + z + [')']), r, n, ext)
      == (GoppCallPrefix(r, n) + y + "(") + "1), " + (r + "." + z + [')'])
  {
    GoppFieldRewritten(z, ')', r, n, ext);
    PlainPieces(r, n, ext);
    GoppCallClear(r, n, y);
    GoppCallThroughInterface(y, " ", r, n, ext);
    var d, f, h := "this." + y + " " + "(", "1), ", "this." + z + [')'];
    var g := GoppCallPrefix(r, n) + y + "(";
    GoppJoin(d, f, '(', g, f, r, n, ext);
    GoppJoin(d + f, h, ' ', g + f, r + "." + z + [')'], r, n, ext);
  }

  /** In gopp/parser.go the call on `this` goes through the interface first,
      `parent::` goes to the embedded parent through the receiver, and the
      last rewrite turns only the fields, nothing the first two generated. */
  lemma GoppOrder(x: string, m: string, y: string, z: string, r: string, n: string, pkg: string, par: string)
    requires x != [] && IsWord(x) && IsWord(m) && y != [] && IsWord(y) && z != [] && IsWord(z)
    requires 'h' !in r && 'h' !in n && 'h' !in par && 'h' !in y && ':' !in r && ':' !in n && ':' !in y
    requires '.' !in pkg && '.' !in par
    ensures GoppConvert((("this." + x + [' ']) + "= " + ("parent::" + m + ['(']))
        + (("this." + y + " " + "(") + "1), " + ("this." + z + [')'])), r, n, pkg + "." + par)
      == ((r + "." + x + [' ']) + "= " + (r + "." + par + "." + m + ['(']))
        + ((GoppCallPrefix(r, n) + y + "(") + "1), " + (r + "." + z + [')']))
  {
    GoppFront(x, m, r, n, pkg, par);
    GoppBack(y, z, r, n, pkg + "." + par);
    GoppJoin(("this." + x + [' ']) + "= " + ("parent::" + m + ['(']),
      ("this." + y + " " + "(") + "1), " + ("this." + z + [')']), '(',
      (r + "." + x + [' ']) + "= " + (r + "." + par + "." + m + ['(']),
      (GoppCallPrefix(r, n) + y + "(") + "1), " + (r + "." + z + [')']), r, n, pkg + "." + par);
  }

  /** The body `this.x = parent::Foo(this.y (1), this.z)` of a class Dog
      extending pkg.Animal becomes, with receiver d_,
      `d_.x = d_.Animal.Foo(d_.I().(DogI).y(1), d_.z)`. */
  lemma GoppConvertExample()
    ensures GoppConvert((("this." + "x" + [' ']) + "= " + ("parent::" + "Foo" + ['(']))
        + (("this." + "y" + " " + "(") + "1), " + ("this." + "z" + [')'])), "d_", "Dog", "pkg" + "." + "Animal")
      == (("d_" + "." + "x" + [' ']) + "= " + ("d_" + "." + "Animal" + "." + "Foo" + ['(']))
        + ((GoppCallPrefix("d_", "Dog") + "y" + "(") + "1), " + ("d_" + "." + "z" + [')']))
  {
    GoppOrder("x", "Foo", "y", "z", "d_", "Dog", "pkg", "Animal");
  }

  /** parser.go on the front of the body. */
  lemma LegacyFront(x: string, m: string, n: string, pkg: string, par: string)
    requires x != [] && IsWord(x) && IsWord(m) && '.' !in pkg && '.' !in par
    ensures var s := ("this." + x + [' ']) + "= " + ("parent::" + m + ['(']);
      LegacyConvert(s, n, pkg + "." + par) == ("this." + x + [' ']) + "= " + ("this." + par + "_." + m + ['('])
      && s[|s| - 1] == '('
  {
    var e := pkg + "." + par;
    LegacyFieldKept(x, ' ', n, e);
    PlainPieces("this", n, e);
    ParentNameQualified(pkg, par);
    LegacyParentRewritten(m, '(', n, e);
    var a, b, c := "this." + x + [' '], "= ", "parent::" + m + ['('];
    LegacyJoin(a, b, ' ', a, b, n, e);
    LegacyJoin(a + b, c, ' ', a + b, "this." + par + "_." + m + ['('], n, e);
  }

  /** parser.go on the back of the body. */
  lemma LegacyBack(y: string, z: string, n: string, ext: string)
    requires y != [] && IsWord(y) && z != [] && IsWord(z) && ':' !in n && ':' !in y
    ensures LegacyConvert(("this." + y + " " + "(") + "1), " + ("this." + z + [')']), n, ext)
      == (LegacyCallPrefix(n) + y + "(") + "1), " + ("this." + z + [')'])
  {
    LegacyFieldKept(z, ')', n, ext);
    PlainPieces("this", n, ext);
    LegacyWritesClear(n, y);
    LegacyCallThroughInterface(y, " ", n, ext);
    var d, f, h := "this." + y + " " + "(", "1), ", "this." + z + [')'];
    var g := LegacyCallPrefix(n) + y + "(";
    LegacyJoin(d, f, '(', g, f, n, ext);
    LegacyJoin(d + f, h, ' ', g + f, h, n, ext);
  }

  /** In parser.go `parent::` is rewritten after the calls, into a `this.`
      that no later rewrite sees: the parent's method is called on the
      embedded struct, the call on `this` goes through the interface and
      the fields stay. */
  lemma LegacyOrder(x: string, m: string, y: string, z: string, n: string, pkg: string, par: string)
    requires x != [] && IsWord(x) && IsWord(m) && y != [] && IsWord(y) && z != [] && IsWord(z)
    requires ':' !in n && ':' !in y && '.' !in pkg && '.' !in par
    ensures LegacyConvert((("this." + x + [' ']) + "= " + ("parent::" + m + ['(']))
        + (("this." + y + " " + "(") + "1), " + ("this." + z + [')'])), n, pkg + "." + par)
      == (("this." + x + [' ']) + "= " + ("this." + par + "_." + m + ['(']))
        + ((LegacyCallPrefix(n) + y + "(") + "1), " + ("this." + z + [')']))
  {
    LegacyFront(x, m, n, pkg, par);
    LegacyBack(y, z, n, pkg + "." + par);
    LegacyJoin(("this." + x + [' ']) + "= " + ("parent::" + m + ['(']),
      ("this." + y + " " + "(") + "1), " + ("this." + z + [')']), '(',
      ("this." + x + [' ']) + "= " + ("this." + par + "_." + m + ['(']),
      (LegacyCallPrefix(n) + y + "(") + "1), " + ("this." + z + [')']), n, pkg + "." + par);
  }

  /** The same body in parser.go becomes
      `this.x = this.Animal_.Foo(this.I_().(Dog).y(1), this.z)`. */
  lemma LegacyConvertExample()
    ensures LegacyConvert((("this." + "x" + [' ']) + "= " + ("parent::" + "Foo" + ['(']))
        + (("this." + "y" + " " + "(") + "1), " + ("this." + "z" + [')'])), "Dog", "pkg" + "." + "Animal")
      == (("this." + "x" + [' ']) + "= " + ("this." + "Animal" + "_." + "Foo" + ['(']))
        + ((LegacyCallPrefix("Dog") + "y" + "(") + "1), " + ("this." + "z" + [')']))
  {
    LegacyOrder("x", "Foo", "y", "z", "Dog", "pkg", "Animal");
  }
}
