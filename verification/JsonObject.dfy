/** Copying a JSON value of any kind from a stream, without the whitespace that does not matter. */
module JsonObject {
  import opened Wrappers

  /** What was copied, and the position after the value. */
  datatype Copied = Copied(out: string, end: nat)

  predicate IsSpace(c: char) { c == ' ' || '\t' <= c <= '\r' }

  /** The characters that continue a number. */
  predicate InNumber(c: char) { '0' <= c <= '9' || c == '.' || c == 'e' || c == 'E' || c == '-' || c == '+' }

  /** The characters of whitespace and of numbers, by their codes. */
  lemma Characters(c: char)
    ensures IsSpace(c) <==> c as int in {9, 10, 11, 12, 13, 32}
    ensures InNumber(c) <==> 48 <= c as int <= 57 || c as int in {43, 45, 46, 69, 101}
  {
  }

  /** The character at a position; NUL stands for the end of the message. */
  function At(t: string, i: nat): char { if i < |t| then t[i] else '\0' }

  // ----- what the code does -----

  /** read_whitespace */
  function Spaces(t: string, i: nat): (j: nat)
    ensures i <= j && (i <= |t| ==> j <= |t|)
    decreases if i < |t| then |t| - i else 0
  {
    if IsSpace(At(t, i)) then Spaces(t, i + 1) else i
  }

  function NumberEnd(t: string, i: nat): (j: nat)
    ensures i <= j && (i <= |t| ==> j <= |t|)
    decreases if i < |t| then |t| - i else 0
  {
    if InNumber(At(t, i)) then NumberEnd(t, i + 1) else i
  }

  /** The position after the closing quote; a backslash takes the next character with it. */
  function StringEnd(t: string, i: nat): (r: Option<nat>)
    ensures r.Some? ==> i < r.value <= |t|
    decreases if i < |t| then |t| - i else 0
  {
    if i >= |t| then None
    else if t[i] == '"' then Some(i + 1)
    else if t[i] == '\\' then (if i + 1 < |t| then StringEnd(t, i + 2) else None)
    else StringEnd(t, i + 1)
  }

  function Word(t: string, i: nat, w: string): Option<Copied> {
    if i + |w| <= |t| && t[i..i + |w|] == w then Some(Copied(w, i + |w|)) else None
  }

  /** skip_object */
  function Skip(t: string, i: nat): (r: Option<Copied>)
    ensures r.Some? ==> i < r.value.end <= |t|
    decreases if i < |t| then |t| - i else 0, 0
  {
    var a := Spaces(t, i);
    var c := At(t, a);
    if a >= |t| then None
    else if c == 'n' then Word(t, a, "null")
    else if c == 'f' then Word(t, a, "false")
    else if c == 't' then Word(t, a, "true")
    else if c == '"' then
      var e := StringEnd(t, a + 1);
      if e.None? then None else Some(Copied(t[a..e.value], e.value))
    else if c == '-' || '0' <= c <= '9' then Some(Copied(t[a..NumberEnd(t, a + 1)], NumberEnd(t, a + 1)))
    else if c == '[' then
      var b := Spaces(t, a + 1);
      if At(t, b) == ']' then Some(Copied("[]", b + 1)) else Prefix("[", Items(t, a + 1))
    else if c == '{' then
      var b := Spaces(t, a + 1);
      if At(t, b) == '}' then Some(Copied("{}", b + 1)) else Prefix("{", Members(t, a + 1))
    else None
  }

  function Prefix(p: string, r: Option<Copied>): Option<Copied> {
    if r.None? then None else Some(Copied(p + r.value.out, r.value.end))
  }

  /** The elements of an array, and its closing bracket. */
  function Items(t: string, i: nat): (r: Option<Copied>)
    ensures r.Some? ==> i < r.value.end <= |t|
    decreases if i < |t| then |t| - i else 0, 1
  {
    var x := Skip(t, i);
    if x.None? then None
    else
      var b := Spaces(t, x.value.end);
      if At(t, b) == ',' then Prefix(x.value.out + ",", Items(t, b + 1))
      else if At(t, b) == ']' then Some(Copied(x.value.out + "]", b + 1))
      else None
  }

  /** The members of an object, and its closing brace. */
  function Members(t: string, i: nat): (r: Option<Copied>)
    ensures r.Some? ==> i < r.value.end <= |t|
    decreases if i < |t| then |t| - i else 0, 1
  {
    var k := Skip(t, i);
    if k.None? then None
    else
      var a := Spaces(t, k.value.end);
      if At(t, a) != ':' then None
      else
        var x := Skip(t, a + 1);
        if x.None? then None
        else
          var b := Spaces(t, x.value.end);
          var pair := k.value.out + (":" + x.value.out);
          if At(t, b) == ',' then Prefix(pair + ",", Members(t, b + 1))
          else if At(t, b) == '}' then Some(Copied(pair + "}", b + 1))
          else None
  }

  // ----- values and their layouts -----

  datatype StringChar = Plain(c: char) | Escaped(c: char)

  datatype Scalar = Null | True | False | Str(chars: seq<StringChar>) | Number(first: char, rest: string)

  /** A value with the whitespace around its tokens. */
  datatype Layout =
    | Single(ws: string, scalar: Scalar)
    | EmptyArray(ws: string, inner: string)
    | Array(ws: string, items: Elements)
    | EmptyObject(ws: string, inner: string)
    | Object(ws: string, members: Pairs)

  datatype Elements =
    | LastElement(value: Layout, after: string)
    | Element(value: Layout, after: string, rest: Elements)

  datatype Pairs =
    | LastPair(key: Layout, colon: string, value: Layout, after: string)
    | Pair(key: Layout, colon: string, value: Layout, after: string, rest: Pairs)

  predicate AllSpace(ws: string) { forall k :: 0 <= k < |ws| ==> IsSpace(ws[k]) }

  function CharsText(cs: seq<StringChar>): string {
    if cs == [] then "" else (match cs[0] case Plain(c) => [c] case Escaped(c) => ['\\', c]) + CharsText(cs[1..])
  }

  function ScalarText(s: Scalar): string {
    match s
    case Null => "null"
    case True => "true"
    case False => "false"
    case Str(cs) => "\"" + (CharsText(cs) + "\"")
    case Number(c, rest) => [c] + rest
  }

  predicate CharOk(x: StringChar) { x.Plain? ==> x.c != '"' && x.c != '\\' }

  predicate ScalarOk(s: Scalar) {
    match s
    case Str(cs) => forall k :: 0 <= k < |cs| ==> CharOk(cs[k])
    case Number(c, rest) => (c == '-' || '0' <= c <= '9') && forall k :: 0 <= k < |rest| ==> InNumber(rest[k])
    case _ => true
  }

  predicate LayoutOk(j: Layout) {
    && AllSpace(j.ws)
    && match j
       case Single(_, s) => ScalarOk(s)
       case EmptyArray(_, w) => AllSpace(w)
       case Array(_, es) => ElementsOk(es)
       case EmptyObject(_, w) => AllSpace(w)
       case Object(_, ps) => PairsOk(ps)
  }

  predicate ElementsOk(es: Elements) {
    LayoutOk(es.value) && AllSpace(es.after) && (es.Element? ==> ElementsOk(es.rest))
  }

  predicate PairsOk(ps: Pairs) {
    LayoutOk(ps.key) && AllSpace(ps.colon) && LayoutOk(ps.value) && AllSpace(ps.after) && (ps.Pair? ==> PairsOk(ps.rest))
  }

  /** The text with all its whitespace. */
  function Full(j: Layout): string
    decreases j, 1
  {
    j.ws + Body(j)
  }

  function Body(j: Layout): string
    decreases j, 0
  {
    match j
    case Single(_, s) => ScalarText(s)
    case EmptyArray(_, w) => "[" + (w + "]")
    case Array(_, es) => "[" + FullElements(es)
    case EmptyObject(_, w) => "{" + (w + "}")
    case Object(_, ps) => "{" + FullPairs(ps)
  }

  function FullElements(es: Elements): string
    decreases es, 2
  {
    Full(es.value) + (es.after + match es case LastElement(_, _) => "]" case Element(_, _, rest) => "," + FullElements(rest))
  }

  function FullPairs(ps: Pairs): string
    decreases ps, 2
  {
    Full(ps.key) + (ps.colon + (":" + (Full(ps.value) + (ps.after +
      match ps case LastPair(_, _, _, _) => "}" case Pair(_, _, _, _, rest) => "," + FullPairs(rest)))))
  }

  /** The same value without whitespace. */
  function Bare(j: Layout): Layout {
    match j
    case Single(_, s) => Single("", s)
    case EmptyArray(_, _) => EmptyArray("", "")
    case Array(_, es) => Array("", BareElements(es))
    case EmptyObject(_, _) => EmptyObject("", "")
    case Object(_, ps) => Object("", BarePairs(ps))
  }

  function BareElements(es: Elements): Elements {
    match es
    case LastElement(v, _) => LastElement(Bare(v), "")
    case Element(v, _, rest) => Element(Bare(v), "", BareElements(rest))
  }

  function BarePairs(ps: Pairs): Pairs {
    match ps
    case LastPair(k, _, v, _) => LastPair(Bare(k), "", Bare(v), "")
    case Pair(k, _, v, _, rest) => Pair(Bare(k), "", Bare(v), "", BarePairs(rest))
  }

  // ----- pieces of text -----

  /** The texts of values, written out. */
  lemma ScalarTexts(ws: string, w: string, c: char)
    ensures Full(Single(ws, Null)) == ws + "null" && Full(Single(ws, True)) == ws + "true" && Full(Single(ws, False)) == ws + "false"
    ensures Full(Single(ws, Number('1', ".5"))) == ws + "1.5"
    ensures Full(EmptyArray(ws, w)) == ws + ("[" + (w + "]")) && Full(EmptyObject(ws, w)) == ws + ("{" + (w + "}"))
    ensures CharsText([]) == "" && CharsText([Plain(c)]) == [c] && CharsText([Escaped(c)]) == "\\" + [c]
    ensures Full(Single(ws, Str([]))) == ws + "\"\""
    ensures ScalarOk(Null) && ScalarOk(True) && ScalarOk(False)
    ensures ScalarOk(Number(c, "")) <==> c as int == 45 || 48 <= c as int <= 57
    ensures ScalarOk(Str([Escaped(c)])) && (ScalarOk(Str([Plain(c)])) <==> c as int != 34 && c as int != 92)
  {
    assert "\"" + ("" + "\"") == "\"\"";
    assert [Plain(c)][1..] == [] && [Escaped(c)][1..] == [];
    assert ['1'] + ".5" == "1.5";
  }

  lemma ArrayText(ws: string, x: Layout, a: string, y: Layout, b: string)
    ensures Full(Array(ws, Element(x, a, LastElement(y, b)))) == ws + ("[" + (Full(x) + (a + ("," + (Full(y) + (b + "]"))))))
    ensures Bare(Array(ws, Element(x, a, LastElement(y, b)))) == Array("", Element(Bare(x), "", LastElement(Bare(y), "")))
  {
    ElementTexts(x, a, y, b);
    hide FullElements, BareElements;
  }

  lemma ElementTexts(x: Layout, a: string, y: Layout, b: string)
    ensures FullElements(Element(x, a, LastElement(y, b))) == Full(x) + (a + ("," + (Full(y) + (b + "]"))))
    ensures BareElements(Element(x, a, LastElement(y, b))) == Element(Bare(x), "", LastElement(Bare(y), ""))
  {
    assert FullElements(LastElement(y, b)) == Full(y) + (b + "]");
    assert BareElements(LastElement(y, b)) == LastElement(Bare(y), "");
    hide Full, Bare;
  }

  lemma ObjectText(ws: string, k: Layout, c: string, v: Layout, a: string, rest: Pairs, b: string)
    ensures Full(Object(ws, LastPair(k, c, v, b))) == ws + ("{" + (Full(k) + (c + (":" + (Full(v) + (b + "}"))))))
    ensures Full(Object(ws, Pair(k, c, v, a, rest))) == ws + ("{" + (Full(k) + (c + (":" + (Full(v) + (a + ("," + FullPairs(rest))))))))
    ensures Bare(Object(ws, LastPair(k, c, v, b))) == Object("", LastPair(Bare(k), "", Bare(v), ""))
    ensures Bare(Object(ws, Pair(k, c, v, a, rest))) == Object("", Pair(Bare(k), "", Bare(v), "", BarePairs(rest)))
  {
    PairTexts(k, c, v, a, rest, b);
    hide FullPairs, BarePairs;
  }

  lemma PairTexts(k: Layout, c: string, v: Layout, a: string, rest: Pairs, b: string)
    ensures FullPairs(LastPair(k, c, v, b)) == Full(k) + (c + (":" + (Full(v) + (b + "}"))))
    ensures FullPairs(Pair(k, c, v, a, rest)) == Full(k) + (c + (":" + (Full(v) + (a + ("," + FullPairs(rest))))))
    ensures BarePairs(LastPair(k, c, v, b)) == LastPair(Bare(k), "", Bare(v), "")
    ensures BarePairs(Pair(k, c, v, a, rest)) == Pair(Bare(k), "", Bare(v), "", BarePairs(rest))
  {
    hide Full, Bare;
  }

  predicate Stands(t: string, i: nat, s: string) { i + |s| <= |t| && t[i..i + |s|] == s }

  lemma StandsSplit(t: string, i: nat, a: string, b: string)
    requires Stands(t, i, a + b)
    ensures Stands(t, i, a) && Stands(t, i + |a|, b) && |a + b| == |a| + |b|
  {
    var x := t[i..i + |a + b|];
    assert t[i..i + |a|] == x[..|a|] == a;
    assert t[i + |a|..i + |a| + |b|] == x[|a|..] == b;
  }

  lemma StandsAt(t: string, i: nat, s: string, k: nat)
    requires Stands(t, i, s) && k < |s|
    ensures i + k < |t| && At(t, i + k) == s[k]
  {
    assert t[i..i + |s|][k] == t[i + k];
  }

  lemma {:induction false} SpacesOver(t: string, i: nat, ws: string)
    requires Stands(t, i, ws) && AllSpace(ws) && !IsSpace(At(t, i + |ws|))
    ensures Spaces(t, i) == i + |ws|
    decreases |ws|
  {
    if ws != "" {
      StandsAt(t, i, ws, 0);
      StandsSplit(t, i, ws[..1], ws[1..]);
      assert ws[..1] + ws[1..] == ws;
      SpacesOver(t, i + 1, ws[1..]);
    }
  }

  lemma {:induction false} NumberOver(t: string, i: nat, s: string)
    requires Stands(t, i, s) && (forall k :: 0 <= k < |s| ==> InNumber(s[k])) && !InNumber(At(t, i + |s|))
    ensures NumberEnd(t, i) == i + |s|
    decreases |s|
  {
    if s != "" {
      StandsAt(t, i, s, 0);
      assert s[..1] + s[1..] == s;
      StandsSplit(t, i, s[..1], s[1..]);
      NumberOver(t, i + 1, s[1..]);
    }
  }

  lemma {:induction false} StringOver(t: string, i: nat, cs: seq<StringChar>)
    requires Stands(t, i, CharsText(cs) + "\"") && forall k :: 0 <= k < |cs| ==> CharOk(cs[k])
    ensures StringEnd(t, i) == Some(i + |CharsText(cs)| + 1)
    decreases |cs|
  {
    if cs == [] {
      assert CharsText(cs) + "\"" == "\"";
      StandsAt(t, i, "\"", 0);
    } else {
      var first := match cs[0] case Plain(c) => [c] case Escaped(c) => ['\\', c];
      var rest := CharsText(cs[1..]) + "\"";
      assert CharsText(cs) + "\"" == first + rest;
      assert CharOk(cs[0]);
      StandsSplit(t, i, first, rest);
      StandsAt(t, i, first, 0);
      StringOver(t, i + |first|, cs[1..]);
    }
  }

  lemma Unfold(t: string, i: nat, a: string, b: string, s: string)
    requires s == a + b && Stands(t, i, s)
    ensures Stands(t, i, a) && Stands(t, i + |a|, b) && |s| == |a| + |b|
  {
    StandsSplit(t, i, a, b);
  }

  // ----- copying a value -----

  /** What follows a value must not look like more of it: only a number can be continued. */
  predicate Ends(t: string, i: nat, j: Layout) {
    j.Single? && j.scalar.Number? ==> !InNumber(At(t, i))
  }

  lemma SkipScalar(t: string, a: nat, s: Scalar)
    requires ScalarOk(s) && Stands(t, a, ScalarText(s)) && (s.Number? ==> !InNumber(At(t, a + |ScalarText(s)|)))
    ensures !IsSpace(At(t, a)) && At(t, a) != ']' && At(t, a) != '}'
    ensures Skip(t, a) == Some(Copied(ScalarText(s), a + |ScalarText(s)|))
  {
    hide Skip, StringEnd, NumberEnd, Stands, At, CharsText;
    match s {
      case Null => SkipWord(t, a, "null");
      case True => SkipWord(t, a, "true");
      case False => SkipWord(t, a, "false");
      case Str(cs) => SkipString(t, a, cs);
      case Number(c, rest) => SkipNumber(t, a, c, rest);
    }
  }

  lemma SkipWord(t: string, a: nat, w: string)
    requires (w == "null" || w == "true" || w == "false") && Stands(t, a, w)
    ensures At(t, a) == w[0] && Skip(t, a) == Some(Copied(w, a + |w|))
  {
    hide Items, Members, StringEnd, NumberEnd;
    StandsAt(t, a, w, 0);
  }

  lemma SkipString(t: string, a: nat, cs: seq<StringChar>)
    requires (forall k :: 0 <= k < |cs| ==> CharOk(cs[k])) && Stands(t, a, ScalarText(Str(cs)))
    ensures At(t, a) == '"' && Skip(t, a) == Some(Copied(ScalarText(Str(cs)), a + |ScalarText(Str(cs))|))
  {
    hide Items, Members, CharsText;
    var x := ScalarText(Str(cs));
    Unfold(t, a, "\"", CharsText(cs) + "\"", x);
    StandsAt(t, a, "\"", 0);
    StringOver(t, a + 1, cs);
    hide StringEnd;
    assert t[a..a + |x|] == x;
  }

  lemma SkipNumber(t: string, a: nat, c: char, rest: string)
    requires (c == '-' || '0' <= c <= '9') && (forall k :: 0 <= k < |rest| ==> InNumber(rest[k]))
    requires Stands(t, a, [c] + rest) && !InNumber(At(t, a + |[c] + rest|))
    ensures At(t, a) == c && Skip(t, a) == Some(Copied([c] + rest, a + |[c] + rest|))
  {
    hide Items, Members, StringEnd;
    Unfold(t, a, [c], rest, [c] + rest);
    StandsAt(t, a, [c], 0);
    NumberOver(t, a + 1, rest);
  }

  lemma SkipSpaces(t: string, i: nat, ws: string)
    requires Stands(t, i, ws) && AllSpace(ws) && !IsSpace(At(t, i + |ws|))
    ensures Skip(t, i) == Skip(t, i + |ws|)
  {
    SpacesOver(t, i, ws);
    assert Spaces(t, i + |ws|) == i + |ws|;
  }

  /** After a value: whitespace and then a punctuation mark. */
  lemma Punctuation(t: string, p: nat, ws: string, x: string)
    requires AllSpace(ws) && x != "" && (x[0] == ',' || x[0] == ']' || x[0] == '}' || x[0] == ':') && Stands(t, p, ws + x)
    ensures !InNumber(At(t, p)) && Spaces(t, p) == p + |ws| && At(t, p + |ws|) == x[0]
    ensures Stands(t, p + |ws|, x) && |ws + x| == |ws| + |x|
  {
    StandsSplit(t, p, ws, x);
    StandsAt(t, p + |ws|, x, 0);
    SpacesOver(t, p, ws);
    if ws != "" { StandsAt(t, p, ws, 0); }
  }

  /** The first character of a value is no whitespace and does not close anything. */
  lemma FirstChar(t: string, i: nat, j: Layout)
    requires LayoutOk(j) && Stands(t, i, Full(j))
    ensures |j.ws| <= |Full(j)| && Stands(t, i, j.ws) && Spaces(t, i) == i + |j.ws|
    ensures var c := At(t, i + |j.ws|); !IsSpace(c) && c != ']' && c != '}'
  {
    var x := Full(j)[|j.ws|..];
    assert Full(j) == j.ws + x;
    Unfold(t, i, j.ws, x, Full(j));
    StandsAt(t, i + |j.ws|, x, 0);
    SpacesOver(t, i, j.ws);
  }

  lemma SkipArray(t: string, a: nat)
    requires At(t, a) == '['
    ensures var b := Spaces(t, a + 1);
            Skip(t, a) == if At(t, b) == ']' then Some(Copied("[]", b + 1)) else Prefix("[", Items(t, a + 1))
  {
    hide Items;
  }

  lemma SkipObject(t: string, a: nat)
    requires At(t, a) == '{'
    ensures var b := Spaces(t, a + 1);
            Skip(t, a) == if At(t, b) == '}' then Some(Copied("{}", b + 1)) else Prefix("{", Members(t, a + 1))
  {
    hide Members;
  }

  lemma BareText(j: Layout)
    ensures Full(Bare(j)) == Body(Bare(j))
  {
    hide Body;
    assert "" + Body(Bare(j)) == Body(Bare(j));
  }

  lemma {:induction false} SkipLayout(t: string, i: nat, j: Layout)
    requires LayoutOk(j) && Stands(t, i, Full(j)) && Ends(t, i + |Full(j)|, j)
    ensures Skip(t, i) == Some(Copied(Full(Bare(j)), i + |Full(j)|))
    decreases j, 1
  {
    FirstChar(t, i, j);
    Unfold(t, i, j.ws, Body(j), Full(j));
    BareText(j);
    hide Skip, Spaces, Body, Bare, Stands;
    SkipSpaces(t, i, j.ws);
    SkipBody(t, i + |j.ws|, j);
  }

  lemma {:induction false} SkipBody(t: string, a: nat, j: Layout)
    requires LayoutOk(j) && Stands(t, a, Body(j)) && Ends(t, a + |Body(j)|, j)
    ensures Skip(t, a) == Some(Copied(Body(Bare(j)), a + |Body(j)|))
    decreases j, 0
  {
    hide Skip, Spaces, Stands, FullElements, FullPairs, ScalarText, Items, Members;
    match j {
      case Single(ws, s) => SkipScalar(t, a, s);
      case EmptyArray(ws, w) =>
        SkipEmpty(t, a, "[", w, "]");
        SkipArray(t, a);
        assert Body(Bare(j)) == "[]";
      case EmptyObject(ws, w) =>
        SkipEmpty(t, a, "{", w, "}");
        SkipObject(t, a);
        assert Body(Bare(j)) == "{}";
      case Array(ws, es) => SkipArrayBody(t, a, es);
      case Object(ws, ps) => SkipObjectBody(t, a, ps);
    }
  }

  lemma {:induction false} SkipArrayBody(t: string, a: nat, es: Elements)
    requires ElementsOk(es) && Stands(t, a, "[" + FullElements(es))
    ensures Skip(t, a) == Some(Copied("[" + FullElements(BareElements(es)), a + |"[" + FullElements(es)|))
    decreases es, 3
  {
    hide Skip, Spaces, Stands, FullElements, BareElements, Items;
    Unfold(t, a, "[", FullElements(es), "[" + FullElements(es));
    StandsAt(t, a, "[", 0);
    FirstElement(t, a + 1, es);
    SkipArray(t, a);
    SkipElements(t, a + 1, es);
  }

  lemma {:induction false} SkipObjectBody(t: string, a: nat, ps: Pairs)
    requires PairsOk(ps) && Stands(t, a, "{" + FullPairs(ps))
    ensures Skip(t, a) == Some(Copied("{" + FullPairs(BarePairs(ps)), a + |"{" + FullPairs(ps)|))
    decreases ps, 3
  {
    hide Skip, Spaces, Stands, FullPairs, BarePairs, Members;
    Unfold(t, a, "{", FullPairs(ps), "{" + FullPairs(ps));
    StandsAt(t, a, "{", 0);
    FirstPair(t, a + 1, ps);
    SkipObject(t, a);
    SkipMembers(t, a + 1, ps);
  }

  lemma SkipEmpty(t: string, a: nat, open: string, w: string, close: string)
    requires |open| == |close| == 1 && (close[0] == ']' || close[0] == '}') && AllSpace(w) && Stands(t, a, open + (w + close))
    ensures At(t, a) == open[0] && Spaces(t, a + 1) == a + 1 + |w| && At(t, a + 1 + |w|) == close[0]
    ensures |open + (w + close)| == |w| + 2
  {
    StandsSplit(t, a, open, w + close);
    StandsAt(t, a, open, 0);
    Punctuation(t, a + 1, w, close);
  }

  lemma FirstElement(t: string, i: nat, es: Elements)
    requires ElementsOk(es) && Stands(t, i, FullElements(es))
    ensures At(t, Spaces(t, i)) != ']'
  {
    hide Full;
    StandsSplit(t, i, Full(es.value), FullElements(es)[|Full(es.value)|..]);
    assert FullElements(es) == Full(es.value) + FullElements(es)[|Full(es.value)|..];
    FirstChar(t, i, es.value);
  }

  lemma FirstPair(t: string, i: nat, ps: Pairs)
    requires PairsOk(ps) && Stands(t, i, FullPairs(ps))
    ensures At(t, Spaces(t, i)) != '}'
  {
    hide Full;
    assert FullPairs(ps) == Full(ps.key) + FullPairs(ps)[|Full(ps.key)|..];
    StandsSplit(t, i, Full(ps.key), FullPairs(ps)[|Full(ps.key)|..]);
    FirstChar(t, i, ps.key);
  }

  /** What follows the value in a list of elements. */
  function AfterElement(es: Elements): (x: string)
    ensures x != "" && (x[0] == ',' || x[0] == ']')
  {
    match es case LastElement(_, _) => "]" case Element(_, _, rest) => "," + FullElements(rest)
  }

  lemma BareElementsText(es: Elements)
    ensures FullElements(BareElements(es)) == Full(Bare(es.value)) + AfterElement(BareElements(es))
  {
    hide Full, Bare;
    var x := AfterElement(BareElements(es));
    assert "" + x == x;
  }

  function FromSpaceElement(es: Elements): string { es.after + AfterElement(es) }

  lemma ElementValue(t: string, i: nat, es: Elements)
    requires Stands(t, i, FullElements(es))
    ensures Stands(t, i, Full(es.value)) && Stands(t, i + |Full(es.value)|, FromSpaceElement(es))
    ensures |FullElements(es)| == |Full(es.value)| + |FromSpaceElement(es)|
  {
    ElementIs(es);
    hide *;
    StandsSplit(t, i, Full(es.value), FromSpaceElement(es));
  }

  lemma ElementAfter(t: string, e: nat, es: Elements)
    requires ElementsOk(es) && Stands(t, e, FromSpaceElement(es))
    ensures !InNumber(At(t, e)) && Spaces(t, e) == e + |es.after| && |FromSpaceElement(es)| == |es.after| + |AfterElement(es)|
    ensures At(t, e + |es.after|) == AfterElement(es)[0] && Stands(t, e + |es.after|, AfterElement(es))
  {
    hide AfterElement, Stands, Spaces, AllSpace;
    Punctuation(t, e, es.after, AfterElement(es));
  }

  lemma ElementIs(es: Elements)
    ensures FullElements(es) == Full(es.value) + FromSpaceElement(es)
  {
    hide Full;
  }

  lemma ElementRest(t: string, b: nat, es: Elements)
    requires es.Element? && Stands(t, b, AfterElement(es))
    ensures AfterElement(es)[0] == ',' && Stands(t, b + 1, FullElements(es.rest)) && |AfterElement(es)| == 1 + |FullElements(es.rest)|
  {
    assert AfterElement(es) == "," + FullElements(es.rest);
    hide *;
    StandsSplit(t, b, ",", FullElements(es.rest));
  }

  lemma ElementsOkParts(es: Elements)
    requires ElementsOk(es)
    ensures LayoutOk(es.value) && (es.Element? ==> ElementsOk(es.rest))
  {
  }

  /** The output of the first element, before others. */
  lemma ElementOut(es: Elements, e: nat)
    requires es.Element?
    ensures Prefix(Full(Bare(es.value)) + ",", Some(Copied(FullElements(BareElements(es.rest)), e))) == Some(Copied(FullElements(BareElements(es)), e))
  {
    BareElementsText(es);
    ElementsBareMore(es);
    hide Full, Bare, FullElements, BareElements, AfterElement;
    Prefixed(Full(Bare(es.value)), FullElements(BareElements(es.rest)), e);
  }

  /** The output of the last element. */
  lemma LastElementOut(es: Elements)
    requires es.LastElement?
    ensures FullElements(BareElements(es)) == Full(Bare(es.value)) + "]" && |AfterElement(es)| == 1 && AfterElement(es)[0] == ']'
  {
    BareElementsText(es);
    ElementsBareLast(es);
  }

  lemma {:induction false} SkipElements(t: string, i: nat, es: Elements)
    requires ElementsOk(es) && Stands(t, i, FullElements(es))
    ensures Items(t, i) == Some(Copied(FullElements(BareElements(es)), i + |FullElements(es)|))
    decreases es, 2
  {
    hide *;
    ElementsOkParts(es);
    var e := i + |Full(es.value)|;
    var b := e + |es.after|;
    ElementValue(t, i, es);
    ElementAfter(t, e, es);
    EndsBefore(t, e, es.value);
    SkipLayout(t, i, es.value);
    ItemsMore(t, i, Full(Bare(es.value)), e, b);
    if es.Element? {
      ElementRest(t, b, es);
      SkipElements(t, b + 1, es.rest);
      ElementOut(es, b + 1 + |FullElements(es.rest)|);
    } else {
      LastElementOut(es);
    }
  }

  lemma ElementsBareLast(es: Elements)
    requires es.LastElement?
    ensures AfterElement(BareElements(es)) == "]"
  {
  }

  lemma ElementsBareMore(es: Elements)
    requires es.Element?
    ensures AfterElement(BareElements(es)) == "," + FullElements(BareElements(es.rest))
  {
  }

  lemma ItemsMore(t: string, i: nat, out: string, e: nat, b: nat)
    requires Skip(t, i) == Some(Copied(out, e)) && Spaces(t, e) == b
    ensures At(t, b) == ',' ==> Items(t, i) == Prefix(out + ",", Items(t, b + 1))
    ensures At(t, b) == ']' ==> Items(t, i) == Some(Copied(out + "]", b + 1))
  {
    hide Skip, Spaces;
  }

  /** What follows the value in a list of members. */
  function AfterPair(ps: Pairs): (x: string)
    ensures x != "" && (x[0] == ',' || x[0] == '}')
  {
    match ps case LastPair(_, _, _, _) => "}" case Pair(_, _, _, _, rest) => "," + FullPairs(rest)
  }

  lemma BarePairsText(ps: Pairs)
    ensures FullPairs(BarePairs(ps)) == (Full(Bare(ps.key)) + (":" + Full(Bare(ps.value)))) + AfterPair(BarePairs(ps))
  {
    hide Full, Bare;
    var k, v, x := Full(Bare(ps.key)), Full(Bare(ps.value)), AfterPair(BarePairs(ps));
    assert FullPairs(BarePairs(ps)) == k + ("" + (":" + (v + ("" + x))));
    assert (k + (":" + v)) + x == k + ("" + (":" + (v + ("" + x))));
  }

  // The text of the first member from its value on, from its colon on, and from the whitespace before that on.
  function FromAfter(ps: Pairs): string { ps.after + AfterPair(ps) }
  function FromValue(ps: Pairs): string { Full(ps.value) + FromAfter(ps) }
  function FromColon(ps: Pairs): string { ":" + FromValue(ps) }
  function FromSpace(ps: Pairs): string { ps.colon + FromColon(ps) }

  lemma PairIs(ps: Pairs)
    ensures FullPairs(ps) == Full(ps.key) + FromSpace(ps)
  {
    hide Full;
  }

  lemma PairKey(t: string, i: nat, ps: Pairs)
    requires Stands(t, i, FullPairs(ps))
    ensures Stands(t, i, Full(ps.key)) && Stands(t, i + |Full(ps.key)|, FromSpace(ps)) && |FullPairs(ps)| == |Full(ps.key)| + |FromSpace(ps)|
  {
    PairIs(ps);
    hide *;
    StandsSplit(t, i, Full(ps.key), FromSpace(ps));
  }

  lemma ColonIs(ps: Pairs)
    requires PairsOk(ps)
    ensures FromSpace(ps) == ps.colon + FromColon(ps) && FromColon(ps) == ":" + FromValue(ps) && AllSpace(ps.colon)
  {
    hide FromValue, AllSpace;
  }

  lemma PairColon(t: string, e: nat, ps: Pairs)
    requires PairsOk(ps) && Stands(t, e, FromSpace(ps))
    ensures !InNumber(At(t, e)) && Spaces(t, e) == e + |ps.colon| && At(t, e + |ps.colon|) == ':'
    ensures Stands(t, e + |ps.colon| + 1, FromValue(ps)) && |FromSpace(ps)| == |ps.colon| + 1 + |FromValue(ps)|
  {
    ColonIs(ps);
    hide *;
    Punctuation(t, e, ps.colon, FromColon(ps));
    StandsSplit(t, e + |ps.colon|, ":", FromValue(ps));
  }

  lemma PairValue(t: string, a: nat, ps: Pairs)
    requires Stands(t, a, FromValue(ps))
    ensures Stands(t, a, Full(ps.value)) && Stands(t, a + |Full(ps.value)|, FromAfter(ps)) && |FromValue(ps)| == |Full(ps.value)| + |FromAfter(ps)|
  {
    hide Full, FromAfter, Stands;
    StandsSplit(t, a, Full(ps.value), FromAfter(ps));
  }

  lemma PairAfter(t: string, f: nat, ps: Pairs)
    requires PairsOk(ps) && Stands(t, f, FromAfter(ps))
    ensures !InNumber(At(t, f)) && Spaces(t, f) == f + |ps.after| && |FromAfter(ps)| == |ps.after| + |AfterPair(ps)|
    ensures At(t, f + |ps.after|) == AfterPair(ps)[0] && Stands(t, f + |ps.after|, AfterPair(ps))
  {
    hide AfterPair, Stands, Spaces, AllSpace;
    Punctuation(t, f, ps.after, AfterPair(ps));
  }

  lemma PairRest(t: string, b: nat, ps: Pairs)
    requires ps.Pair? && Stands(t, b, AfterPair(ps))
    ensures AfterPair(ps)[0] == ',' && Stands(t, b + 1, FullPairs(ps.rest)) && |AfterPair(ps)| == 1 + |FullPairs(ps.rest)|
  {
    assert AfterPair(ps) == "," + FullPairs(ps.rest);
    hide *;
    StandsSplit(t, b, ",", FullPairs(ps.rest));
  }

  lemma PairsOkParts(ps: Pairs)
    requires PairsOk(ps)
    ensures LayoutOk(ps.key) && LayoutOk(ps.value) && (ps.Pair? ==> PairsOk(ps.rest))
  {
  }

  /** The output of the first member, before others. */
  lemma PairOut(ps: Pairs, e: nat)
    requires ps.Pair?
    ensures Prefix(Full(Bare(ps.key)) + (":" + Full(Bare(ps.value))) + ",", Some(Copied(FullPairs(BarePairs(ps.rest)), e)))
         == Some(Copied(FullPairs(BarePairs(ps)), e))
  {
    BarePairsText(ps);
    PairsBareMore(ps);
    hide Full, Bare, FullPairs, BarePairs, AfterPair;
    Prefixed(Full(Bare(ps.key)) + (":" + Full(Bare(ps.value))), FullPairs(BarePairs(ps.rest)), e);
  }

  /** The output of the last member. */
  lemma LastPairOut(ps: Pairs)
    requires ps.LastPair?
    ensures FullPairs(BarePairs(ps)) == Full(Bare(ps.key)) + (":" + Full(Bare(ps.value))) + "}" && |AfterPair(ps)| == 1
  {
    BarePairsText(ps);
    PairsBareLast(ps);
  }

  lemma {:induction false} SkipMembers(t: string, i: nat, ps: Pairs)
    requires PairsOk(ps) && Stands(t, i, FullPairs(ps))
    ensures Members(t, i) == Some(Copied(FullPairs(BarePairs(ps)), i + |FullPairs(ps)|))
    decreases ps, 2
  {
    hide *;
    PairsOkParts(ps);
    var e := i + |Full(ps.key)|;
    var a := e + |ps.colon|;
    var f := a + 1 + |Full(ps.value)|;
    var b := f + |ps.after|;
    PairKey(t, i, ps);
    PairColon(t, e, ps);
    PairValue(t, a + 1, ps);
    PairAfter(t, f, ps);
    EndsBefore(t, e, ps.key);
    EndsBefore(t, f, ps.value);
    SkipLayout(t, i, ps.key);
    SkipLayout(t, a + 1, ps.value);
    MembersStep(t, i, Full(Bare(ps.key)), e, a, Full(Bare(ps.value)), f, b);
    if ps.Pair? {
      PairRest(t, b, ps);
      SkipMembers(t, b + 1, ps.rest);
      PairOut(ps, b + 1 + |FullPairs(ps.rest)|);
    } else {
      LastMark(ps);
      LastPairOut(ps);
    }
  }

  lemma LastMark(ps: Pairs)
    requires ps.LastPair?
    ensures AfterPair(ps)[0] == '}'
  {
  }

  lemma EndsBefore(t: string, i: nat, j: Layout)
    requires !InNumber(At(t, i))
    ensures Ends(t, i, j)
  {
  }

  lemma Prefixed(a: string, b: string, e: nat)
    ensures Prefix(a + ",", Some(Copied(b, e))) == Some(Copied(a + ("," + b), e))
  {
    assert (a + ",") + b == a + ("," + b);
  }

  lemma PairsBareLast(ps: Pairs)
    requires ps.LastPair?
    ensures AfterPair(BarePairs(ps)) == "}"
  {
  }

  lemma PairsBareMore(ps: Pairs)
    requires ps.Pair?
    ensures AfterPair(BarePairs(ps)) == "," + FullPairs(BarePairs(ps.rest))
  {
  }

  lemma MembersStep(t: string, i: nat, key: string, e: nat, a: nat, value: string, f: nat, b: nat)
    requires Skip(t, i) == Some(Copied(key, e)) && Spaces(t, e) == a && At(t, a) == ':'
    requires Skip(t, a + 1) == Some(Copied(value, f)) && Spaces(t, f) == b
    ensures At(t, b) == ',' ==> Members(t, i) == Prefix(key + (":" + value) + ",", Members(t, b + 1))
    ensures At(t, b) == '}' ==> Members(t, i) == Some(Copied(key + (":" + value) + "}", b + 1))
  {
    hide Skip, Spaces;
  }

  // ----- the results -----

  /** json_read_object consumes exactly the value and returns it without the insignificant whitespace. */
  lemma ReadObject(before: string, j: Layout, after: string)
    requires LayoutOk(j) && Ends(after, 0, j)
    ensures Skip(before + Full(j) + after, |before|) == Some(Copied(Full(Bare(j)), |before| + |Full(j)|))
  {
    hide Full, LayoutOk, Skip;
    var t := before + Full(j) + after;
    var e := |before| + |Full(j)|;
    assert t[|before|..e] == Full(j);
    assert At(t, e) == At(after, 0);
    SkipLayout(t, |before|, j);
  }

  lemma {:induction false} BareOk(j: Layout)
    requires LayoutOk(j)
    ensures LayoutOk(Bare(j)) && Bare(Bare(j)) == Bare(j)
    decreases j, 0
  {
    match j {
      case Single(_, _) =>
      case EmptyArray(_, _) =>
      case EmptyObject(_, _) =>
      case Array(_, es) => BareElementsOk(es);
      case Object(_, ps) => BarePairsOk(ps);
    }
  }

  lemma {:induction false} BareElementsOk(es: Elements)
    requires ElementsOk(es)
    ensures ElementsOk(BareElements(es)) && BareElements(BareElements(es)) == BareElements(es)
    decreases es, 1
  {
    BareOk(es.value);
    if es.Element? { BareElementsOk(es.rest); }
  }

  lemma {:induction false} BarePairsOk(ps: Pairs)
    requires PairsOk(ps)
    ensures PairsOk(BarePairs(ps)) && BarePairs(BarePairs(ps)) == BarePairs(ps)
    decreases ps, 1
  {
    BareOk(ps.key);
    BareOk(ps.value);
    if ps.Pair? { BarePairsOk(ps.rest); }
  }

  /** Reading what was returned returns it again. */
  lemma ReadObjectAgain(j: Layout)
    requires LayoutOk(j)
    ensures var out := Full(Bare(j)); Skip(out, 0) == Some(Copied(out, |out|))
  {
    BareOk(j);
    var out := Full(Bare(j));
    hide Full, LayoutOk, Skip, Bare;
    ReadObject("", Bare(j), "");
    assert "" + out + "" == out;
  }
}
