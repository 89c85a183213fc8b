/** Translating the shortcuts of menu items: the toolkit writes a key sequence as one string,
    "Ctrl+Q, Meta++", the bus carries lists of key names, [["Control", "Q"], ["Super", "plus"]].

    Both directions rewrite words one after another, so words made by one rewriting could be caught
    by a later one, or run together with their neighbours. They never do: there and back is the same
    as rewriting the bus's names in the original string. */
module Shortcut {
  // ---------- replacing, splitting, joining ----------

  predicate StartsWith(s: string, w: string) {
    |w| <= |s| && s[..|w|] == w
  }

  predicate Contains(s: string, w: string) {
    exists i | 0 <= i <= |s| :: StartsWith(s[i..], w)
  }

  /** Replaces every occurrence of `w`, from left to right. */
  function Replace(s: string, w: string, v: string): string
    requires w != []
    decreases |s|
  {
    if StartsWith(s, w) then v + Replace(s[|w|..], w, v)
    else if s == [] then []
    else [s[0]] + Replace(s[1..], w, v)
  }

  function Split(s: string, sep: string): (parts: seq<string>)
    requires sep != []
    ensures parts != []
    decreases |s|
  {
    if StartsWith(s, sep) then [[]] + Split(s[|sep|..], sep)
    else if s == [] then [[]]
    else
      var rest := Split(s[1..], sep);
      [[s[0]] + rest[0]] + rest[1..]
  }

  function Join(parts: seq<string>, sep: string): string
    decreases |parts|
  {
    if parts == [] then []
    else if |parts| == 1 then parts[0]
    else parts[0] + sep + Join(parts[1..], sep)
  }

  // ---------- the table ----------

  datatype Column = QT | DM

  datatype Row = Row(qt: string, dm: string) {
    function At(c: Column): string {
      if c.QT? then qt else dm
    }
  }

  const META := Row("Meta", "Super")
  const CTRL := Row("Ctrl", "Control")
  const PLUS := Row("+", "plus")
  const MINUS := Row("-", "minus")

  const TABLE: seq<Row> := [META, CTRL, PLUS, MINUS]

  predicate HasNoEmptyWord(rows: seq<Row>) {
    forall row <- rows :: row.qt != [] && row.dm != []
  }

  function Rewritten(token: string, src: Column, dst: Column, rows: seq<Row>): string
    requires HasNoEmptyWord(rows)
    decreases |rows|
  {
    if rows == [] then token else Rewritten(Replace(token, rows[0].At(src), rows[0].At(dst)), src, dst, rows[1..])
  }

  /** One key name, translated to the bus's. */
  function ToBus(token: string): string {
    Replace(Replace(Replace(Replace(token, "Meta", "Super"), "Ctrl", "Control"), "+", "plus"), "-", "minus")
  }

  /** One key name, translated to the toolkit's. */
  function FromBus(token: string): string {
    Replace(Replace(Replace(Replace(token, "Super", "Meta"), "Control", "Ctrl"), "plus", "+"), "minus", "-")
  }

  lemma RewriteRow(token: string, src: Column, dst: Column, row: Row, rows: seq<Row>)
    requires HasNoEmptyWord([row] + rows)
    ensures Rewritten(token, src, dst, [row] + rows) == Rewritten(Replace(token, row.At(src), row.At(dst)), src, dst, rows)
  {
    assert ([row] + rows)[1..] == rows;
  }

  lemma TableRewrites(token: string)
    ensures Rewritten(token, QT, DM, TABLE) == ToBus(token)
    ensures Rewritten(token, DM, QT, TABLE) == FromBus(token)
  {
    hide Replace, Rewritten;
    TableRewritesFrom(token, QT, DM);
    TableRewritesFrom(token, DM, QT);
  }

  lemma TableRewritesFrom(token: string, src: Column, dst: Column)
    ensures Rewritten(token, src, dst, TABLE)
         == Replace(Replace(Replace(Replace(token, META.At(src), META.At(dst)), CTRL.At(src), CTRL.At(dst)),
                            PLUS.At(src), PLUS.At(dst)), MINUS.At(src), MINUS.At(dst))
  {
    hide Replace;
    var t1 := Replace(token, META.At(src), META.At(dst));
    var t2 := Replace(t1, CTRL.At(src), CTRL.At(dst));
    var t3 := Replace(t2, PLUS.At(src), PLUS.At(dst));
    RewriteRow(token, src, dst, META, [CTRL, PLUS, MINUS]);
    RewriteRow(t1, src, dst, CTRL, [PLUS, MINUS]);
    RewriteRow(t2, src, dst, PLUS, [MINUS]);
    RewriteRow(t3, src, dst, MINUS, []);
    assert TABLE == [META] + [CTRL, PLUS, MINUS] && [CTRL, PLUS, MINUS] == [CTRL] + [PLUS, MINUS];
    assert [PLUS, MINUS] == [PLUS] + [MINUS] && [MINUS] == [MINUS] + [];
  }

  function AllToBus(tokens: seq<string>): (r: seq<string>)
    ensures |r| == |tokens| && forall i | 0 <= i < |r| :: r[i] == ToBus(tokens[i])
  {
    seq(|tokens|, i requires 0 <= i < |tokens| => ToBus(tokens[i]))
  }

  function AllFromBus(tokens: seq<string>): (r: seq<string>)
    ensures |r| == |tokens| && forall i | 0 <= i < |r| :: r[i] == FromBus(tokens[i])
  {
    seq(|tokens|, i requires 0 <= i < |tokens| => FromBus(tokens[i]))
  }

  // ---------- words that keep out of each other's way ----------

  predicate Compatible(x: string, y: string) {
    x == [] || y == [] || (x[0] == y[0] && Compatible(x[1..], y[1..]))
  }

  /** No occurrence of `y` can begin inside an occurrence of `x`. */
  predicate Avoids(x: string, y: string) {
    x == [] || (!Compatible(x, y) && Avoids(x[1..], y))
  }

  lemma {:induction false} PrefixesAreCompatible(s: string, x: string, y: string)
    requires StartsWith(s, x) && StartsWith(s, y)
    ensures Compatible(x, y)
    decreases |x|
  {
    if x != [] && y != [] {
      assert s[0] == s[..|x|][0] == s[..|y|][0];
      assert s[1..][..|x| - 1] == s[..|x|][1..] && s[1..][..|y| - 1] == s[..|y|][1..];
      PrefixesAreCompatible(s[1..], x[1..], y[1..]);
    }
  }

  /** Rewriting `w` passes over a word that avoids it. */
  lemma {:induction false} Skip(x: string, rest: string, w: string, v: string)
    requires w != [] && Avoids(x, w)
    ensures Replace(x + rest, w, v) == x + Replace(rest, w, v)
    decreases |x|
  {
    if x == [] {
      assert x + rest == rest && x + Replace(rest, w, v) == Replace(rest, w, v);
    } else {
      if StartsWith(x + rest, w) {
        assert (x + rest)[..|x|] == x;
        PrefixesAreCompatible(x + rest, x, w);
      }
      assert (x + rest)[1..] == x[1..] + rest;
      Skip(x[1..], rest, w, v);
      assert [x[0]] + (x[1..] + Replace(rest, w, v)) == x + Replace(rest, w, v);
    }
  }

  /** Rewriting `a` to `b` neither makes nor spoils an `x` at the front. */
  lemma {:induction false} FrontIsKept(t: string, a: string, b: string, x: string)
    requires a != [] && Avoids(x, a) && Avoids(x, b)
    ensures StartsWith(Replace(t, a, b), x) <==> StartsWith(t, x)
    decreases |t|
  {
    var r := Replace(t, a, b);
    if x == [] {
    } else if StartsWith(t, a) {
      if StartsWith(t, x) {
        PrefixesAreCompatible(t, x, a);
      }
      if StartsWith(r, x) {
        assert r[..|b|] == b;
        PrefixesAreCompatible(r, x, b);
      }
    } else if t != [] {
      FrontIsKept(t[1..], a, b, x[1..]);
      assert r[1..] == Replace(t[1..], a, b);
      FrontByParts(r, x);
      FrontByParts(t, x);
    }
  }

  lemma FrontByParts(s: string, x: string)
    requires s != [] && x != []
    ensures StartsWith(s, x) <==> (s[0] == x[0] && StartsWith(s[1..], x[1..]))
  {
    if |x| <= |s| {
      assert s[..|x|] == [s[0]] + s[1..][..|x| - 1] && x == [x[0]] + x[1..];
    }
  }

  lemma FrontOfConcat(x: string, rest: string)
    ensures StartsWith(x + rest, x) && (x + rest)[|x|..] == rest
  {
  }

  /** Both words of one rewriting avoid both words of the other, either way round. */
  predicate Independent(a: string, b: string, c: string, d: string) {
    && Avoids(a, c) && Avoids(b, c) && Avoids(c, a) && Avoids(d, a)
    && Avoids(c, b) && Avoids(a, d)
  }

  lemma {:induction false} Commute(t: string, a: string, b: string, c: string, d: string)
    requires a != [] && c != [] && Independent(a, b, c, d)
    ensures Replace(Replace(t, a, b), c, d) == Replace(Replace(t, c, d), a, b)
    decreases |t|
  {
    if StartsWith(t, a) {
      CommuteAtWord(t, a, b, c, d);
    } else if StartsWith(t, c) {
      CommuteAtWord(t, c, d, a, b);
    } else if t != [] {
      Commute(t[1..], a, b, c, d);
      FrontIsKept(t, a, b, c);
      FrontIsKept(t, c, d, a);
      var ab, cd := Replace(t, a, b), Replace(t, c, d);
      assert ab[1..] == Replace(t[1..], a, b) && cd[1..] == Replace(t[1..], c, d);
    }
  }

  lemma {:induction false} CommuteAtWord(t: string, a: string, b: string, c: string, d: string)
    requires a != [] && c != [] && Independent(a, b, c, d) && StartsWith(t, a)
    ensures Replace(Replace(t, a, b), c, d) == Replace(Replace(t, c, d), a, b)
    decreases |t|, 0
  {
    var rest := t[|a|..];
    assert t == a + rest;
    Commute(rest, a, b, c, d);
    Skip(b, Replace(rest, a, b), c, d);
    Skip(a, rest, c, d);
    FrontOfConcat(a, Replace(rest, c, d));
  }

  predicate Absorbs(p: string, b: string, c: string) {
    && b != [] && c != []
    && Avoids(p + c, b) && Avoids(p, b) && Avoids(b, p + c) && Avoids(b[1..], p + c) && Avoids(b[1..], p + b)
  }

  /** Rewriting `c` to `b` first, behind a common prefix `p`, is undone by rewriting `b` to `c`. */
  lemma {:induction false} Absorb(t: string, p: string, b: string, c: string)
    requires Absorbs(p, b, c)
    ensures Replace(Replace(t, p + c, p + b), b, c) == Replace(t, b, c)
    decreases |t|
  {
    var a, n := p + c, p + b;
    var r := Replace(t, a, n);
    if StartsWith(t, a) {
      Absorb(t[|a|..], p, b, c);
      AbsorbAtWord(t, p, b, c, t[|a|..]);
    } else if StartsWith(t, b) {
      var rest := t[|b|..];
      assert t == b + rest;
      Absorb(rest, p, b, c);
      Skip(b, rest, a, n);
      FrontOfConcat(b, Replace(rest, a, n));
    } else if t != [] {
      Absorb(t[1..], p, b, c);
      assert r[1..] == Replace(t[1..], a, n);
      FrontIsKept(t[1..], a, n, b[1..]);
      FrontByParts(t, b);
      FrontByParts(r, b);
    }
  }

  lemma ReplaceFront(w: string, rest: string, v: string)
    requires w != []
    ensures Replace(w + rest, w, v) == v + Replace(rest, w, v)
  {
    FrontOfConcat(w, rest);
  }

  lemma AbsorbAtWord(t: string, p: string, b: string, c: string, rest: string)
    requires Absorbs(p, b, c) && StartsWith(t, p + c) && rest == t[|p + c|..]
    requires Replace(Replace(rest, p + c, p + b), b, c) == Replace(rest, b, c)
    ensures Replace(Replace(t, p + c, p + b), b, c) == Replace(t, b, c)
  {
    hide Replace, Avoids;
    var a, n := p + c, p + b;
    var done := Replace(rest, a, n);
    assert t == a + rest && n + done == p + (b + done);
    ReplaceFront(a, rest, n);
    Skip(p, b + done, b, c);
    ReplaceFront(b, done, c);
    Skip(a, rest, b, c);
    Regroup(p, c, Replace(rest, b, c));
  }

  lemma Regroup(x: string, y: string, z: string)
    ensures x + (y + z) == (x + y) + z
  {
  }

  // ---------- the words of the table ----------

  lemma {:induction false} AvoidsByFirst(x: string, y: string)
    requires y != [] && y[0] !in x
    ensures Avoids(x, y)
  {
    if x != [] {
      assert x[0] in x && forall c <- x[1..] :: c in x;
      AvoidsByFirst(x[1..], y);
    }
  }

  /** Two rewritings whose words do not contain each other's first letters. */
  lemma IndependentByFirst(a: string, b: string, c: string, d: string)
    requires a != [] && b != [] && c != [] && d != []
    requires c[0] !in a && c[0] !in b && a[0] !in c && a[0] !in d && d[0] !in a
    requires b[0] !in c || Avoids(c, b)
    ensures Independent(a, b, c, d)
  {
    AvoidsByFirst(a, c);
    AvoidsByFirst(b, c);
    AvoidsByFirst(c, a);
    AvoidsByFirst(d, a);
    AvoidsByFirst(a, d);
    if b[0] !in c {
      AvoidsByFirst(c, b);
    }
  }

  lemma AbsorbsByFirst(p: string, b: string, c: string)
    requires b != [] && c != [] && b[0] !in p + c && (p + c)[0] !in b && (p + b)[0] !in b[1..]
    ensures Absorbs(p, b, c)
  {
    AvoidsByFirst(p + c, b);
    AvoidsByFirst(p, b);
    AvoidsByFirst(b, p + c);
    AvoidsByFirst(b[1..], p + c);
    AvoidsByFirst(b[1..], p + b);
  }

  lemma SuperClashesWithPlus()
    ensures !Compatible("per", "plus") && !Compatible("uper", "plus") && !Compatible("Super", "plus")
  {
    assert !Compatible("er", "lus");
  }

  /** "Super" holds the first letter of "plus", but no occurrence of it. */
  lemma SuperAvoidsPlus()
    ensures Avoids("Super", "plus")
  {
    hide Compatible;
    AvoidsByFirst("er", "plus");
    SuperClashesWithPlus();
    assert "Super"[1..] == "uper" && "uper"[1..] == "per" && "per"[1..] == "er";
  }

  lemma CtrlAvoidsControl()
    ensures Absorbs("", "Control", "Ctrl")
  {
    AvoidsByFirst("trl", "Control");
    AvoidsByFirst("ontrol", "Ctrl");
    AvoidsByFirst("ontrol", "Control");
    assert !Compatible("trl", "ontrol") && !Compatible("ontrol", "trl");
    assert "" + "Ctrl" == "Ctrl" && "" + "Control" == "Control";
    assert "Ctrl"[1..] == "trl" && "Control"[1..] == "ontrol";
  }

  // ---------- there and back ----------

  lemma SuperIsLastIn(t: string)
    ensures Replace(ToBus(t), "Super", "Meta")
         == Replace(Replace(Replace(Replace(t, "Super", "Meta"), "Ctrl", "Control"), "+", "plus"), "-", "minus")
  {
    hide Replace, Avoids;
    var t1 := Replace(t, "Meta", "Super");
    var t2 := Replace(t1, "Ctrl", "Control");
    var t3 := Replace(t2, "+", "plus");
    SuperAvoidsPlus();
    IndependentByFirst("-", "minus", "Super", "Meta");
    Commute(t3, "-", "minus", "Super", "Meta");
    IndependentByFirst("+", "plus", "Super", "Meta");
    Commute(t2, "+", "plus", "Super", "Meta");
    IndependentByFirst("Ctrl", "Control", "Super", "Meta");
    Commute(t1, "Ctrl", "Control", "Super", "Meta");
    AbsorbsByFirst("", "Super", "Meta");
    assert "" + "Meta" == "Meta" && "" + "Super" == "Super";
    Absorb(t, "", "Super", "Meta");
  }

  lemma ControlIsLastIn(t: string)
    ensures Replace(Replace(Replace(Replace(t, "Ctrl", "Control"), "+", "plus"), "-", "minus"), "Control", "Ctrl")
         == Replace(Replace(Replace(t, "Control", "Ctrl"), "+", "plus"), "-", "minus")
  {
    hide Replace, Avoids;
    var t1 := Replace(t, "Ctrl", "Control");
    var t2 := Replace(t1, "+", "plus");
    IndependentByFirst("-", "minus", "Control", "Ctrl");
    Commute(t2, "-", "minus", "Control", "Ctrl");
    IndependentByFirst("+", "plus", "Control", "Ctrl");
    Commute(t1, "+", "plus", "Control", "Ctrl");
    CtrlAvoidsControl();
    assert "" + "Ctrl" == "Ctrl" && "" + "Control" == "Control";
    Absorb(t, "", "Control", "Ctrl");
  }

  lemma SignsComeBack(t: string)
    ensures Replace(Replace(Replace(Replace(t, "+", "plus"), "-", "minus"), "plus", "+"), "minus", "-")
         == Replace(Replace(t, "plus", "+"), "minus", "-")
  {
    hide Replace, Avoids;
    var t1 := Replace(t, "+", "plus");
    IndependentByFirst("-", "minus", "plus", "+");
    Commute(t1, "-", "minus", "plus", "+");
    AbsorbsByFirst("", "plus", "+");
    AbsorbsByFirst("", "minus", "-");
    assert "" + "+" == "+" && "" + "plus" == "plus" && "" + "-" == "-" && "" + "minus" == "minus";
    Absorb(t, "", "plus", "+");
    Absorb(Replace(t, "plus", "+"), "", "minus", "-");
  }

  /** Translating a key name to the bus and back is translating it back: whatever the name holds,
      the words made on the way there do not run together with anything. */
  lemma KeyThereAndBack(t: string)
    ensures FromBus(ToBus(t)) == FromBus(t)
  {
    hide Replace;
    SuperIsLastIn(t);
    var t1 := Replace(t, "Super", "Meta");
    ControlIsLastIn(t1);
    SignsComeBack(Replace(t1, "Control", "Ctrl"));
  }

  /** Spelling out the second of two plus signs beforehand makes no difference in the end. */
  lemma DoublePlusThereAndBack(t: string)
    ensures FromBus(Replace(t, "++", "+plus")) == FromBus(t)
  {
    hide Replace, Avoids;
    IndependentByFirst("++", "+plus", "Super", "Meta");
    Commute(t, "++", "+plus", "Super", "Meta");
    var t1 := Replace(t, "Super", "Meta");
    IndependentByFirst("++", "+plus", "Control", "Ctrl");
    Commute(t1, "++", "+plus", "Control", "Ctrl");
    AbsorbsByFirst("+", "plus", "+");
    assert "+" + "+" == "++" && "+" + "plus" == "+plus";
    Absorb(Replace(t1, "Control", "Ctrl"), "+", "plus", "+");
  }

  predicate Separates(sep: string, w: string) {
    sep != [] && w != [] && forall c <- sep :: c !in w
  }

  lemma NoWordAcross(x: string, sep: string, y: string, w: string)
    requires Separates(sep, w) && !StartsWith(x, w)
    ensures !StartsWith(x + sep + y, w)
  {
    var s := x + sep + y;
    if |w| <= |x| {
      assert s[..|w|] == x[..|w|];
    } else {
      assert s[|x|] == sep[0] && w[|x|] in w;
      assert |w| <= |s| ==> s[..|w|][|x|] == sep[0];
    }
  }

  /** No occurrence of `w` reaches across a separator. */
  lemma {:induction false} ReplaceAcross(x: string, sep: string, y: string, w: string, v: string)
    requires Separates(sep, w)
    ensures Replace(x + sep + y, w, v) == Replace(x, w, v) + sep + Replace(y, w, v)
    decreases |x|
  {
    var s := x + sep + y;
    if x == [] {
      assert s == sep + y;
      assert w[0] !in sep;
      AvoidsByFirst(sep, w);
      Skip(sep, y, w, v);
    } else if StartsWith(x, w) {
      assert s[..|w|] == x[..|w|] && s[|w|..] == x[|w|..] + sep + y;
      ReplaceAcross(x[|w|..], sep, y, w, v);
      Regroup(v, Replace(x[|w|..], w, v), sep);
      Regroup(v, Replace(x[|w|..], w, v) + sep, Replace(y, w, v));
    } else {
      NoWordAcross(x, sep, y, w);
      assert s[1..] == x[1..] + sep + y;
      ReplaceAcross(x[1..], sep, y, w, v);
      Regroup([x[0]], Replace(x[1..], w, v), sep);
      Regroup([x[0]], Replace(x[1..], w, v) + sep, Replace(y, w, v));
    }
  }

  predicate SeparatesAll(sep: string) {
    Separates(sep, "Super") && Separates(sep, "Control") && Separates(sep, "plus") && Separates(sep, "minus")
  }

  lemma FromBusAcross(x: string, sep: string, y: string)
    requires SeparatesAll(sep)
    ensures FromBus(x + sep + y) == FromBus(x) + sep + FromBus(y)
  {
    hide Replace, Separates;
    var x1, y1 := Replace(x, "Super", "Meta"), Replace(y, "Super", "Meta");
    var x2, y2 := Replace(x1, "Control", "Ctrl"), Replace(y1, "Control", "Ctrl");
    var x3, y3 := Replace(x2, "plus", "+"), Replace(y2, "plus", "+");
    ReplaceAcross(x, sep, y, "Super", "Meta");
    ReplaceAcross(x1, sep, y1, "Control", "Ctrl");
    ReplaceAcross(x2, sep, y2, "plus", "+");
    ReplaceAcross(x3, sep, y3, "minus", "-");
  }

  lemma {:induction false} FromBusThroughJoin(parts: seq<string>, sep: string)
    requires SeparatesAll(sep) && parts != []
    ensures Join(AllFromBus(parts), sep) == FromBus(Join(parts, sep))
    decreases |parts|
  {
    hide FromBus, SeparatesAll;
    if |parts| > 1 {
      FromBusThroughJoin(parts[1..], sep);
      assert AllFromBus(parts)[1..] == AllFromBus(parts[1..]);
      FromBusAcross(parts[0], sep, Join(parts[1..], sep));
    }
  }

  lemma JoinMore(part: string, parts: seq<string>, sep: string)
    requires parts != []
    ensures Join([part] + parts, sep) == part + sep + Join(parts, sep)
  {
    assert ([part] + parts)[1..] == parts;
  }

  lemma JoinOfOne(part: string, sep: string)
    ensures Join([part], sep) == part
  {
  }

  lemma JoinLonger(c: char, parts: seq<string>, sep: string)
    requires parts != []
    ensures Join([[c] + parts[0]] + parts[1..], sep) == [c] + Join(parts, sep)
  {
    var longer := [[c] + parts[0]] + parts[1..];
    assert longer[1..] == parts[1..];
    if |parts| > 1 {
      Regroup([c], parts[0], sep);
      Regroup([c], parts[0] + sep, Join(parts[1..], sep));
    }
  }

  lemma {:induction false} JoinOfSplit(s: string, sep: string)
    requires sep != []
    ensures Join(Split(s, sep), sep) == s
    decreases |s|
  {
    hide Join;
    if StartsWith(s, sep) {
      var rest := s[|sep|..];
      JoinOfSplit(rest, sep);
      JoinMore([], Split(rest, sep), sep);
      assert s == [] + sep + rest;
    } else if s == [] {
      JoinOfOne([], sep);
    } else {
      JoinOfSplit(s[1..], sep);
      JoinLonger(s[0], Split(s[1..], sep), sep);
      assert s == [s[0]] + s[1..];
    }
  }

  // ---------- whole shortcuts ----------

  function KeyTokens(token: string): seq<string> {
    AllToBus(Split(Replace(token, "++", "+plus"), "+"))
  }

  function AllKeyTokens(tokens: seq<string>): (r: seq<seq<string>>)
    ensures |r| == |tokens| && forall i | 0 <= i < |r| :: r[i] == KeyTokens(tokens[i])
  {
    seq(|tokens|, i requires 0 <= i < |tokens| => KeyTokens(tokens[i]))
  }

  /** The bus's shortcut for the text of a key sequence. */
  function ShortcutOf(text: string): seq<seq<string>> {
    AllKeyTokens(Split(text, ", "))
  }

  function TokenText(keyTokens: seq<string>): string {
    Join(AllFromBus(keyTokens), "+")
  }

  function AllTokenTexts(shortcut: seq<seq<string>>): (r: seq<string>)
    ensures |r| == |shortcut| && forall i | 0 <= i < |r| :: r[i] == TokenText(shortcut[i])
  {
    seq(|shortcut|, i requires 0 <= i < |shortcut| => TokenText(shortcut[i]))
  }

  /** The text of the key sequence for a shortcut of the bus. */
  function TextOf(shortcut: seq<seq<string>>): string {
    Join(AllTokenTexts(shortcut), ", ")
  }

  lemma TokenThereAndBack(token: string)
    ensures TokenText(KeyTokens(token)) == FromBus(token)
  {
    hide FromBus, ToBus, Replace, Split, Join;
    var plain := Replace(token, "++", "+plus");
    var parts := Split(plain, "+");
    forall i | 0 <= i < |parts| ensures FromBus(ToBus(parts[i])) == FromBus(parts[i]) {
      KeyThereAndBack(parts[i]);
    }
    assert AllFromBus(KeyTokens(token)) == AllFromBus(parts);
    FromBusThroughJoin(parts, "+");
    JoinOfSplit(plain, "+");
    DoublePlusThereAndBack(token);
  }

  /** For every text: splitting it into key names, translating them to the bus and back and joining
      them is the same as translating the text as it stands. */
  lemma ThereAndBack(text: string)
    ensures TextOf(ShortcutOf(text)) == FromBus(text)
  {
    hide FromBus, Split, Join, KeyTokens, TokenText;
    var tokens := Split(text, ", ");
    forall i | 0 <= i < |tokens| ensures TokenText(KeyTokens(tokens[i])) == FromBus(tokens[i]) {
      TokenThereAndBack(tokens[i]);
    }
    assert AllTokenTexts(AllKeyTokens(tokens)) == AllFromBus(tokens);
    FromBusThroughJoin(tokens, ", ");
    JoinOfSplit(text, ", ");
  }

  lemma ContainsInTail(s: string, w: string)
    requires s != [] && !StartsWith(s, w)
    ensures Contains(s, w) <==> Contains(s[1..], w)
  {
    assert s[0..] == s;
    assert forall i | 0 < i <= |s| :: s[i..] == s[1..][i - 1..];
    assert forall i | 0 <= i <= |s[1..]| :: s[1..][i..] == s[i + 1..];
  }

  lemma {:induction false} ReplaceShrinks(s: string, w: string, v: string)
    requires |v| < |w|
    ensures |Replace(s, w, v)| <= |s|
    ensures Contains(s, w) ==> |Replace(s, w, v)| < |s|
    ensures !Contains(s, w) ==> Replace(s, w, v) == s
    decreases |s|
  {
    if StartsWith(s, w) {
      ReplaceShrinks(s[|w|..], w, v);
      assert s[0..] == s;
    } else if s != [] {
      ContainsInTail(s, w);
      ReplaceShrinks(s[1..], w, v);
    }
  }

  /** The text survives the trip exactly when it holds none of the names only the bus uses. */
  lemma RoundTripIff(text: string)
    ensures TextOf(ShortcutOf(text)) == text <==>
            !Contains(text, "Super") && !Contains(text, "Control") && !Contains(text, "plus") && !Contains(text, "minus")
  {
    ThereAndBack(text);
    hide Replace, Contains, TextOf, ShortcutOf;
    var t1 := Replace(text, "Super", "Meta");
    var t2 := Replace(t1, "Control", "Ctrl");
    var t3 := Replace(t2, "plus", "+");
    ReplaceShrinks(text, "Super", "Meta");
    ReplaceShrinks(t1, "Control", "Ctrl");
    ReplaceShrinks(t2, "plus", "+");
    ReplaceShrinks(t3, "minus", "-");
  }

  // ---------- the lists on the bus ----------

  lemma ReplaceNone(x: string, w: string, v: string)
    requires w != [] && Avoids(x, w)
    ensures Replace(x, w, v) == x
  {
    Skip(x, [], w, v);
    assert x + [] == x && x + Replace([], w, v) == x;
  }

  lemma ReplaceAll(w: string, v: string)
    requires w != []
    ensures Replace(w, w, v) == v
  {
    ReplaceFront(w, [], v);
    assert w + [] == w && v + Replace([], w, v) == v;
  }

  lemma {:induction false} ReplaceGrows(s: string, w: string, v: string)
    requires w != [] && |w| < |v|
    ensures |Replace(s, w, v)| >= |s|
    ensures Contains(s, w) ==> |Replace(s, w, v)| > |s|
    ensures !Contains(s, w) ==> Replace(s, w, v) == s
    decreases |s|
  {
    if StartsWith(s, w) {
      ReplaceGrows(s[|w|..], w, v);
      assert s[0..] == s;
    } else if s != [] {
      ContainsInTail(s, w);
      ReplaceGrows(s[1..], w, v);
    }
  }

  /** A key name goes to the bus as it is exactly when it holds none of the names only the toolkit uses. */
  lemma ToBusKeepsIff(key: string)
    ensures ToBus(key) == key <==>
            !Contains(key, "Meta") && !Contains(key, "Ctrl") && !Contains(key, "+") && !Contains(key, "-")
  {
    hide Replace, Contains;
    var t1 := Replace(key, "Meta", "Super");
    var t2 := Replace(t1, "Ctrl", "Control");
    var t3 := Replace(t2, "+", "plus");
    ReplaceGrows(key, "Meta", "Super");
    ReplaceGrows(t1, "Ctrl", "Control");
    ReplaceGrows(t2, "+", "plus");
    ReplaceGrows(t3, "-", "minus");
  }

  /** And those names become the bus's. */
  lemma ToBusNames()
    ensures ToBus("Meta") == "Super" && ToBus("Ctrl") == "Control" && ToBus("+") == "plus" && ToBus("-") == "minus"
    ensures ToBus("plus") == "plus"
  {
    hide Replace, Avoids;
    ReplaceAll("Meta", "Super");
    AvoidsByFirst("Super", "Ctrl");
    ReplaceNone("Super", "Ctrl", "Control");
    AvoidsByFirst("Super", "+");
    ReplaceNone("Super", "+", "plus");
    AvoidsByFirst("Super", "-");
    ReplaceNone("Super", "-", "minus");
    AvoidsByFirst("Ctrl", "Meta");
    ReplaceNone("Ctrl", "Meta", "Super");
    ReplaceAll("Ctrl", "Control");
    AvoidsByFirst("Control", "+");
    ReplaceNone("Control", "+", "plus");
    AvoidsByFirst("Control", "-");
    ReplaceNone("Control", "-", "minus");
    SignsToBus();
  }

  lemma SignsToBus()
    ensures ToBus("+") == "plus" && ToBus("-") == "minus" && ToBus("plus") == "plus"
  {
    hide Replace, Avoids;
    AvoidsByFirst("+", "Meta");
    ReplaceNone("+", "Meta", "Super");
    AvoidsByFirst("+", "Ctrl");
    ReplaceNone("+", "Ctrl", "Control");
    ReplaceAll("+", "plus");
    AvoidsByFirst("plus", "-");
    ReplaceNone("plus", "-", "minus");
    AvoidsByFirst("-", "Meta");
    ReplaceNone("-", "Meta", "Super");
    AvoidsByFirst("-", "Ctrl");
    ReplaceNone("-", "Ctrl", "Control");
    AvoidsByFirst("-", "+");
    ReplaceNone("-", "+", "plus");
    ReplaceAll("-", "minus");
    AvoidsByFirst("plus", "Meta");
    ReplaceNone("plus", "Meta", "Super");
    AvoidsByFirst("plus", "Ctrl");
    ReplaceNone("plus", "Ctrl", "Control");
    AvoidsByFirst("plus", "+");
    ReplaceNone("plus", "+", "plus");
  }

  /** No occurrence of `sep` begins in `x`, also if `sep` follows. */
  predicate IsClearOf(x: string, sep: string)
    requires sep != []
  {
    !Contains(x + sep[..|sep| - 1], sep)
  }

  lemma NotAtFront(x: string, sep: string, y: string)
    requires sep != [] && x != [] && IsClearOf(x, sep)
    ensures !StartsWith(x + sep + y, sep) && !StartsWith(x + sep[..|sep| - 1], sep) && IsClearOf(x[1..], sep)
  {
    var s, short := x + sep + y, x + sep[..|sep| - 1];
    assert short[0..] == short;
    assert s[..|sep|] == short[..|sep|];
    ContainsInTail(short, sep);
    assert short[1..] == x[1..] + sep[..|sep| - 1];
  }

  lemma {:induction false} SplitFront(x: string, sep: string, y: string)
    requires sep != [] && IsClearOf(x, sep)
    ensures Split(x + sep + y, sep) == [x] + Split(y, sep)
    decreases |x|
  {
    var s := x + sep + y;
    if x == [] {
      assert s == sep + y;
      FrontOfConcat(sep, y);
    } else {
      NotAtFront(x, sep, y);
      assert s[1..] == x[1..] + sep + y;
      SplitFront(x[1..], sep, y);
      assert [x[0]] + x[1..] == x;
    }
  }

  lemma {:induction false} SplitLast(x: string, sep: string)
    requires sep != [] && IsClearOf(x, sep)
    ensures Split(x, sep) == [x]
    decreases |x|
  {
    if x != [] {
      NotAtFront(x, sep, []);
      assert x + sep + [] == x + sep;
      assert StartsWith(x, sep) ==> StartsWith(x + sep, sep) by {
        assert |sep| <= |x| ==> (x + sep)[..|sep|] == x[..|sep|];
      }
      SplitLast(x[1..], sep);
      assert [x[0]] + x[1..] == x;
    } else {
      assert !StartsWith(x, sep);
    }
  }

  /** Splitting undoes joining, if the parts do not hold the separator. */
  lemma {:induction false} SplitOfJoin(parts: seq<string>, sep: string)
    requires sep != [] && parts != [] && (forall x <- parts :: IsClearOf(x, sep))
    ensures Split(Join(parts, sep), sep) == parts
    decreases |parts|
  {
    hide Split, IsClearOf;
    if |parts| == 1 {
      SplitLast(parts[0], sep);
    } else {
      SplitOfJoin(parts[1..], sep);
      SplitFront(parts[0], sep, Join(parts[1..], sep));
      assert parts == [parts[0]] + parts[1..];
    }
  }

  /** A key name that is not the plus key. */
  predicate IsName(key: string) {
    key != [] && '+' !in key
  }

  /** The keys of one chord: names, behind which the plus key may stand. */
  predicate IsChord(keys: seq<string>)
    decreases |keys|
  {
    keys != [] && IsName(keys[0]) && (|keys| == 1 || keys[1..] == ["+"] || IsChord(keys[1..]))
  }

  /** The chord with its plus key spelled out. */
  function Spelled(keys: seq<string>): (r: seq<string>)
    ensures |r| == |keys| && forall i | 0 <= i < |r| :: r[i] == if keys[i] == "+" then "plus" else keys[i]
  {
    seq(|keys|, i requires 0 <= i < |keys| => if keys[i] == "+" then "plus" else keys[i])
  }

  lemma SpelledFirst(keys: seq<string>)
    requires keys != []
    ensures Spelled(keys) == [if keys[0] == "+" then "plus" else keys[0]] + Spelled(keys[1..])
  {
  }

  lemma JoinFirst(keys: seq<string>, sep: string)
    requires |keys| > 1
    ensures Join(keys, sep) == keys[0] + (sep + Join(keys[1..], sep))
  {
    Regroup(keys[0], sep, Join(keys[1..], sep));
  }

  lemma PlusBeforeName(rest: string)
    requires rest != [] && rest[0] != '+'
    ensures Replace("+" + rest, "++", "+plus") == "+" + Replace(rest, "++", "+plus")
  {
    var s := "+" + rest;
    assert s[..2][1] == rest[0];
    assert s[1..] == rest;
  }

  lemma JoinStartsWithName(keys: seq<string>)
    requires IsChord(keys)
    ensures Join(keys, "+") != [] && Join(keys, "+")[0] != '+'
  {
    if |keys| > 1 {
      JoinFirst(keys, "+");
    }
    assert keys[0][0] in keys[0];
  }

  /** Rewriting the double plus spells out the plus key of a chord and nothing else. */
  lemma {:induction false} DoublePlusIsPlusKey(keys: seq<string>)
    requires IsChord(keys)
    ensures Replace(Join(keys, "+"), "++", "+plus") == Join(Spelled(keys), "+")
    decreases |keys|
  {
    hide Replace, Avoids, IsName, Join;
    assert '+' !in keys[0] && keys[0] != "+" by {
      NameIsNotPlus(keys[0]);
    }
    AvoidsByFirst(keys[0], "++");
    SpelledFirst(keys);
    if |keys| == 1 {
      ReplaceNone(keys[0], "++", "+plus");
      JoinOfOne(keys[0], "+");
      assert keys == [keys[0]] && Spelled(keys) == keys;
    } else {
      JoinFirst(keys, "+");
      JoinFirst(Spelled(keys), "+");
      assert Spelled(keys)[1..] == Spelled(keys[1..]);
      if keys[1..] == ["+"] {
        JoinOfOne("+", "+");
        JoinOfOne("plus", "+");
        assert Spelled(keys[1..]) == ["plus"] && "+" + "+" == "++" && "+" + "plus" == "+plus";
        Skip(keys[0], "++", "++", "+plus");
        ReplaceAll("++", "+plus");
      } else {
        var rest := Join(keys[1..], "+");
        JoinStartsWithName(keys[1..]);
        Skip(keys[0], "+" + rest, "++", "+plus");
        PlusBeforeName(rest);
        DoublePlusIsPlusKey(keys[1..]);
      }
    }
  }

  lemma PlusIsIn(s: string)
    ensures Contains(s, "+") ==> '+' in s
  {
    if Contains(s, "+") {
      var i :| 0 <= i <= |s| && StartsWith(s[i..], "+");
      assert s[i..][..1][0] == '+' && s[i] == '+';
    }
  }

  lemma NameIsNotPlus(key: string)
    requires IsName(key)
    ensures '+' !in key && key != "+" && IsClearOf(key, "+")
  {
    assert "+"[0] in "+";
    assert key + "+"[..0] == key;
    PlusIsIn(key);
  }

  lemma PlusWordIsName()
    ensures IsClearOf("plus", "+")
  {
    NameIsNotPlus("plus");
  }

  lemma {:induction false} SpelledAreNames(keys: seq<string>)
    requires IsChord(keys)
    ensures forall key <- Spelled(keys) :: IsClearOf(key, "+")
    decreases |keys|
  {
    hide IsClearOf, IsName;
    SpelledFirst(keys);
    NameIsNotPlus(keys[0]);
    PlusWordIsName();
    if |keys| > 1 && keys[1..] != ["+"] {
      SpelledAreNames(keys[1..]);
    }
  }

  /** The keys of a chord, written with plus signs between them, reach the bus one by one, each
      translated; the plus key at the end is told from the signs between. */
  lemma ChordReachesBus(keys: seq<string>)
    requires IsChord(keys)
    ensures KeyTokens(Join(keys, "+")) == AllToBus(keys)
  {
    assert keys != [];
    hide Replace, Split, Join, ToBus, IsClearOf, IsChord;
    DoublePlusIsPlusKey(keys);
    SpelledAreNames(keys);
    SplitOfJoin(Spelled(keys), "+");
    ToBusNames();
  }

  function AllChordTexts(chords: seq<seq<string>>): (r: seq<string>)
    ensures |r| == |chords| && forall i | 0 <= i < |r| :: r[i] == Join(chords[i], "+")
  {
    seq(|chords|, i requires 0 <= i < |chords| => Join(chords[i], "+"))
  }

  function AllChordsToBus(chords: seq<seq<string>>): (r: seq<seq<string>>)
    ensures |r| == |chords| && forall i | 0 <= i < |r| :: r[i] == AllToBus(chords[i])
  {
    seq(|chords|, i requires 0 <= i < |chords| => AllToBus(chords[i]))
  }

  lemma CommaDoesNotReach(x: string)
    ensures Contains(x + ",", ", ") ==> Contains(x, ", ")
  {
    var s := x + ",";
    if Contains(s, ", ") {
      var i :| 0 <= i <= |s| && StartsWith(s[i..], ", ");
      assert s[i..][..2][1] == ' ' && s[i + 1] == ' ' && s[|x|] == ',';
      assert x[i..][..2] == s[i..][..2];
      assert StartsWith(x[i..], ", ");
    }
  }

  lemma ClearOfComma(x: string)
    requires !Contains(x, ", ")
    ensures IsClearOf(x, ", ")
  {
    CommaDoesNotReach(x);
    hide Contains;
    assert ", "[..1] == ",";
  }

  /** A key sequence of several chords reaches the bus as the list of its chords. */
  lemma SequenceReachesBus(chords: seq<seq<string>>)
    requires chords != [] && (forall keys <- chords :: IsChord(keys) && !Contains(Join(keys, "+"), ", "))
    ensures ShortcutOf(Join(AllChordTexts(chords), ", ")) == AllChordsToBus(chords)
  {
    hide Contains, IsClearOf, IsChord, Join, KeyTokens, Split;
    var texts := AllChordTexts(chords);
    forall i | 0 <= i < |texts| ensures IsClearOf(texts[i], ", ") && KeyTokens(texts[i]) == AllToBus(chords[i]) {
      ClearOfComma(texts[i]);
      ChordReachesBus(chords[i]);
    }
    SplitOfJoin(texts, ", ");
  }

  /** The plus key alone is taken for a separator: its name is lost on the bus. */
  lemma LonePlusIsLost()
    ensures KeyTokens("+") == ["", ""] && ShortcutOf("+") == [["", ""]]
  {
    hide Replace;
    ReplacePlus();
    assert "+"[1..] == "" && "+"[..1] == "+";
    assert Split("", "+") == [""];
    assert Split("+", "+") == ["", ""];
    assert !StartsWith("+", ", ") && !StartsWith("", ", ");
    assert Split("", ", ") == [""];
    var last := Split("", ", ");
    assert ['+'] + last[0] == "+" && last[1..] == [] && Split("+", ", ") == [['+'] + last[0]] + last[1..];
    NothingToBus();
    assert AllToBus(["", ""]) == ["", ""];
  }

  /** A chord as the toolkit writes one: every key but the last is a name, and the last one a name or the
      plus key. */
  predicate IsWritten(keys: seq<string>) {
    && keys != []
    && (forall i | 0 <= i < |keys| - 1 :: IsName(keys[i]))
    && (IsName(keys[|keys| - 1]) || keys[|keys| - 1] == "+")
  }

  lemma {:induction false} WrittenIsChord(keys: seq<string>)
    requires IsWritten(keys) && keys != ["+"]
    ensures IsChord(keys)
    decreases |keys|
  {
    hide IsName;
    if |keys| == 1 {
      assert keys == [keys[0]];
    } else if keys[1..] != ["+"] {
      var rest := keys[1..];
      assert forall i | 0 <= i < |rest| :: rest[i] == keys[i + 1];
      WrittenIsChord(rest);
    }
  }

  /** Of the chords the toolkit writes, all but the plus key alone reach the bus key by key. */
  lemma ChordReachesBusIff(keys: seq<string>)
    requires IsWritten(keys)
    ensures KeyTokens(Join(keys, "+")) == AllToBus(keys) <==> keys != ["+"]
  {
    hide KeyTokens, ToBus, IsWritten, IsChord, Join;
    if keys == ["+"] {
      LonePlusIsLost();
      JoinOfOne("+", "+");
      assert |AllToBus(keys)| == 1;
    } else {
      WrittenIsChord(keys);
      ChordReachesBus(keys);
    }
  }

  lemma NothingToBus()
    ensures ToBus("") == ""
  {
  }

  lemma ReplacePlus()
    ensures Replace("+", "++", "+plus") == "+"
  {
    assert "+"[1..] == "";
  }

  /** The other way: the text of a shortcut is the translation of its key names as they stand, with plus
      signs between the keys and commas between the chords, for every list of lists. */
  lemma TextIsTranslated(shortcut: seq<seq<string>>)
    ensures TextOf(shortcut) == FromBus(Join(AllChordTexts(shortcut), ", "))
  {
    hide FromBus, Join;
    NothingFromBus();
    forall i | 0 <= i < |shortcut| ensures TokenText(shortcut[i]) == FromBus(Join(shortcut[i], "+")) {
      if shortcut[i] != [] {
        FromBusThroughJoin(shortcut[i], "+");
      }
    }
    assert AllTokenTexts(shortcut) == AllFromBus(AllChordTexts(shortcut));
    if shortcut != [] {
      FromBusThroughJoin(AllChordTexts(shortcut), ", ");
    }
  }

  lemma NothingFromBus()
    ensures FromBus("") == "" && Join([], "+") == "" && Join([], ", ") == ""
  {
  }

  // ---------- the conversions as they are programmed ----------

  /** Rewrites the tokens in place, row by row of the table. */
  method ProcessKeyTokens(tokens: array<string>, srcCol: Column, dstCol: Column)
    modifies tokens
    ensures forall i | 0 <= i < tokens.Length :: tokens[i] == Rewritten(old(tokens[i]), srcCol, dstCol, TABLE)
  {
    var row := 0;
    while row < |TABLE|
      invariant 0 <= row <= |TABLE| && HasNoEmptyWord(TABLE[row..])
      invariant forall i | 0 <= i < tokens.Length ::
                  Rewritten(tokens[i], srcCol, dstCol, TABLE[row..]) == Rewritten(old(tokens[i]), srcCol, dstCol, TABLE)
    {
      ReplaceInStrings(tokens, TABLE[row].At(srcCol), TABLE[row].At(dstCol));
      assert TABLE[row..][1..] == TABLE[row + 1..];
      row := row + 1;
    }
    assert TABLE[row..] == [];
  }

  method ReplaceInStrings(strings: array<string>, w: string, v: string)
    requires w != []
    modifies strings
    ensures forall i | 0 <= i < strings.Length :: strings[i] == Replace(old(strings[i]), w, v)
  {
    for k := 0 to strings.Length
      invariant forall i | 0 <= i < k :: strings[i] == Replace(old(strings[i]), w, v)
      invariant forall i | k <= i < strings.Length :: strings[i] == old(strings[i])
    {
      strings[k] := Replace(strings[k], w, v);
    }
  }

  method Processed(tokens: seq<string>, srcCol: Column, dstCol: Column) returns (r: seq<string>)
    ensures |r| == |tokens| && forall i | 0 <= i < |r| :: r[i] == Rewritten(tokens[i], srcCol, dstCol, TABLE)
  {
    var a := new string[|tokens|](i requires 0 <= i < |tokens| => tokens[i]);
    ProcessKeyTokens(a, srcCol, dstCol);
    r := a[..];
  }

  /** The shortcut sent for a key sequence written as `text`. */
  method FromKeySequence(text: string) returns (shortcut: seq<seq<string>>)
    ensures shortcut == ShortcutOf(text)
  {
    var tokens := Split(text, ", ");
    shortcut := [];
    for k := 0 to |tokens|
      invariant shortcut == AllKeyTokens(tokens[..k])
    {
      var parts := Split(Replace(tokens[k], "++", "+plus"), "+");
      var keyTokens := Processed(parts, QT, DM);
      TableRewritesAll(parts);
      assert keyTokens == KeyTokens(tokens[k]);
      shortcut := shortcut + [keyTokens];
    }
    assert tokens[..|tokens|] == tokens;
  }

  /** The text of the key sequence for a received shortcut. */
  method ToKeySequence(shortcut: seq<seq<string>>) returns (text: string)
    ensures text == TextOf(shortcut)
  {
    var texts: seq<string> := [];
    for k := 0 to |shortcut|
      invariant texts == AllTokenTexts(shortcut[..k])
    {
      var keyTokens := Processed(shortcut[k], DM, QT);
      TableRewritesAll(shortcut[k]);
      assert keyTokens == AllFromBus(shortcut[k]);
      texts := texts + [Join(keyTokens, "+")];
    }
    assert shortcut[..|shortcut|] == shortcut;
    text := Join(texts, ", ");
  }

  lemma TableRewritesAll(tokens: seq<string>)
    ensures forall i | 0 <= i < |tokens| :: Rewritten(tokens[i], QT, DM, TABLE) == ToBus(tokens[i])
    ensures forall i | 0 <= i < |tokens| :: Rewritten(tokens[i], DM, QT, TABLE) == FromBus(tokens[i])
  {
    hide ToBus, FromBus, Rewritten;
    forall i | 0 <= i < |tokens|
      ensures Rewritten(tokens[i], QT, DM, TABLE) == ToBus(tokens[i]) &&
              Rewritten(tokens[i], DM, QT, TABLE) == FromBus(tokens[i])
    {
      TableRewrites(tokens[i]);
    }
  }
}
