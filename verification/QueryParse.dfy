/** The parser of context queries: loops over the characters of a NUL-terminated string, and the round trip from a query
    through its text. */
module QueryParse {
  import opened Wrappers
  import opened QueryMatch

  /** The character at a position of a NUL-terminated string. */
  function At(q: string, i: nat): char { if i < |q| then q[i] else '\0' }

  predicate NulFree(q: string) { forall k :: 0 <= k < |q| ==> q[k] != '\0' }

  predicate IsDigit(c: char) { '0' <= c <= '9' }

  predicate IsSymbol(c: char) { c == '_' || IsDigit(c) || 'a' <= c <= 'z' || 'A' <= c <= 'Z' }

  /** A character at which no name, property or wildcard can start. */
  predicate IsDelimiter(c: char) { c == '/' || c == '=' || c == ',' || c == '\0' }

  /** The characters of unquoted names and of numbers, and those that end them, by their codes. */
  lemma Characters(c: char)
    ensures IsDigit(c) <==> 48 <= c as int <= 57
    ensures IsSymbol(c) <==> var n := c as int; 48 <= n <= 57 || 65 <= n <= 90 || n == 95 || 97 <= n <= 122
    ensures IsDelimiter(c) <==> c as int in {0, 44, 47, 61}
  {
  }

  /** A parsed item and the position after it. */
  datatype Parsed<T> = Ok(value: T, end: nat) | Error

  // ----- tokens -----

  /** The end of a run of characters. */
  function RunEnd(q: string, i: nat, digits: bool): (j: nat)
    ensures i <= j
    ensures i <= |q| ==> j <= |q|
    decreases if i < |q| then |q| - i else 0
  {
    if i < |q| && (if digits then IsDigit(q[i]) else IsSymbol(q[i])) then RunEnd(q, i + 1, digits) else i
  }

  /** The rest of a quoted string, from `i` on. */
  function Unquote(q: string, i: nat, acc: string): (r: Parsed<string>)
    ensures r.Ok? && i <= |q| ==> i < r.end <= |q|
    decreases if i < |q| then |q| - i else 0
  {
    if At(q, i) == '"' then Ok(acc, i + 1)
    else if At(q, i) == '\\' then
      if At(q, i + 1) == '\\' || At(q, i + 1) == '"' then Unquote(q, i + 2, acc + [At(q, i + 1)]) else Error
    else if i >= |q| then Error
    else Unquote(q, i + 1, acc + [q[i]])
  }

  function Symbol(q: string, i: nat): (r: Parsed<string>)
    requires i <= |q|
    ensures r.Ok? ==> i <= r.end <= |q| && (!IsDelimiter(At(q, i)) ==> i < r.end)
  {
    var j := RunEnd(q, i, false);
    if IsDelimiter(At(q, j)) then Ok(q[i..j], j) else Error
  }

  function Number(q: string, i: nat): (r: Parsed<string>)
    requires i <= |q|
    ensures r.Ok? ==> i <= r.end <= |q| && (IsDigit(At(q, i)) ==> i < r.end) && At(q, r.end) != '='
  {
    var j := RunEnd(q, i, true);
    if IsDelimiter(At(q, j)) && At(q, j) != '=' then Ok(q[i..j], j) else Error
  }

  function Text(q: string, i: nat): (r: Parsed<string>)
    requires i <= |q|
    ensures r.Ok? ==> i <= r.end <= |q| && (!IsDelimiter(At(q, i)) ==> i < r.end)
  {
    if At(q, i) == '"' then Unquote(q, i + 1, "") else Symbol(q, i)
  }

  function Value(q: string, i: nat): (r: Parsed<string>)
    requires i <= |q|
    ensures r.Ok? ==> i <= r.end <= |q| && (!IsDelimiter(At(q, i)) ==> i < r.end)
  {
    if IsDigit(At(q, i)) then Number(q, i) else Text(q, i)
  }

  function Property(q: string, i: nat): (r: Parsed<Attribute>)
    requires i <= |q|
    ensures r.Ok? ==> i <= r.end <= |q| && (!IsDelimiter(At(q, i)) ==> i < r.end) && At(q, r.end) != '='
  {
    var n := Text(q, i);
    if n.Error? then Error
    else if At(q, n.end) != '=' then Ok(Attribute(None, n.value), n.end)
    else if IsDelimiter(At(q, n.end + 1)) then Error
    else
      var v := Value(q, n.end + 1);
      if v.Error? || At(q, v.end) == '=' then Error else Ok(Attribute(Some(n.value), v.value), v.end)
  }

  function Wildcard(q: string, i: nat): (r: Parsed<Attribute>)
    requires i < |q| && q[i] == '*'
    ensures r.Ok? ==> i < r.end <= |q| && At(q, r.end) != '='
  {
    var j := if At(q, i + 1) == '*' then i + 2 else i + 1;
    if At(q, j) == '\0' || At(q, j) == '/' then Ok(Attribute(None, q[i..j]), j) else Error
  }

  function Item(q: string, i: nat): (r: Parsed<Attribute>)
    requires i < |q| && NulFree(q)
    ensures r.Ok? ==> i <= r.end <= |q| && (!IsDelimiter(At(q, i)) ==> i < r.end) && At(q, r.end) != '='
  {
    if q[i] == '*' then Wildcard(q, i) else Property(q, i)
  }

  /** The parts of a query from position `i` on, after the finished `parts` and the conditions `attrs` of the current one.
      Every item that is accepted takes up text; none is looked for where none can start. */
  function Parts(q: string, i: nat, parts: seq<Part>, attrs: Part): (r: Parsed<seq<Part>>)
    requires NulFree(q)
    decreases if i < |q| then |q| - i else 0
  {
    if IsDelimiter(At(q, i)) then Ok(parts + [attrs], i)
    else
      var a := Item(q, i);
      if a.Error? then Error
      else if At(q, a.end) == '/' then
        if IsDelimiter(At(q, a.end + 1)) then Error else Parts(q, a.end + 1, parts + [attrs + [a.value]], [])
      else if At(q, a.end) == ',' then
        if IsDelimiter(At(q, a.end + 1)) then Error else Parts(q, a.end + 1, parts, attrs + [a.value])
      else Parts(q, a.end, parts, attrs + [a.value])
  }

  datatype Query = Query(abs: bool, parts: seq<Part>)

  /** The meaning of a text as a query; `None` if it is malformed. */
  function Parse(q: string): (r: Option<Query>)
    requires NulFree(q)
  {
    if q == "" then Some(Query(false, []))
    else
      var abs := q[0] == '/';
      var i := if abs then 1 else 0;
      if IsDelimiter(At(q, i)) then None
      else
        var r := Parts(q, i, [], []);
        if r.Error? then None else Some(Query(abs, r.value))
  }

  // ----- the loops -----

  method ParseRun(q: string, i: nat, digits: bool) returns (j: nat, buf: string)
    requires i <= |q|
    ensures j == RunEnd(q, i, digits) && buf == q[i..j]
  {
    j, buf := i, [];
    while if digits then IsDigit(At(q, j)) else IsSymbol(At(q, j))
      invariant i <= j <= |q| && RunEnd(q, i, digits) == RunEnd(q, j, digits) && buf == q[i..j]
      decreases |q| - j
    {
      buf := buf + [q[j]];
      j := j + 1;
    }
  }

  method ParseQuoted(q: string, i: nat) returns (r: Parsed<string>)
    requires NulFree(q) && i < |q| && q[i] == '"'
    ensures r == Unquote(q, i + 1, "")
  {
    var c, buf := i + 1, "";
    while At(q, c) != '"'
      invariant i < c <= |q| && Unquote(q, i + 1, "") == Unquote(q, c, buf)
      decreases |q| - c
    {
      if At(q, c) == '\\' {
        c := c + 1;
        if At(q, c) != '\\' && At(q, c) != '"' { return Error; }
      } else if At(q, c) == '\0' {
        return Error;
      }
      buf := buf + [At(q, c)];
      c := c + 1;
    }
    r := Ok(buf, c + 1);
  }

  method ParseText(q: string, i: nat) returns (r: Parsed<string>)
    requires NulFree(q) && i <= |q|
    ensures r == Text(q, i)
  {
    if At(q, i) == '"' {
      r := ParseQuoted(q, i);
    } else {
      var j, buf := ParseRun(q, i, false);
      r := if IsDelimiter(At(q, j)) then Ok(buf, j) else Error;
    }
  }

  method ParseValue(q: string, i: nat) returns (r: Parsed<string>)
    requires NulFree(q) && i <= |q|
    ensures r == Value(q, i)
  {
    if IsDigit(At(q, i)) {
      var j, buf := ParseRun(q, i, true);
      r := if At(q, j) == ',' || At(q, j) == '/' || At(q, j) == '\0' then Ok(buf, j) else Error;
    } else {
      r := ParseText(q, i);
    }
  }

  method ParseProperty(q: string, i: nat) returns (r: Parsed<Attribute>)
    requires NulFree(q) && i <= |q|
    ensures r == Property(q, i)
  {
    hide Text, Value;
    var n := ParseText(q, i);
    if n.Error? { return Error; }
    var c := n.end;
    var attr := Attribute(None, n.value);
    if At(q, c) == '=' {
      c := c + 1;
      if IsDelimiter(At(q, c)) { return Error; }
      var v := ParseValue(q, c);
      if v.Error? { return Error; }
      attr, c := Attribute(Some(n.value), v.value), v.end;
      if At(q, c) == '=' { return Error; }
    }
    r := Ok(attr, c);
  }

  method ParseWildcard(q: string, i: nat) returns (r: Parsed<Attribute>)
    requires i < |q| && q[i] == '*'
    ensures r == Wildcard(q, i)
  {
    var c, buf := i + 1, "*";
    if At(q, c) == '*' {
      c, buf := c + 1, "**";
    }
    assert buf == q[i..c];
    if At(q, c) != '\0' && At(q, c) != '/' { return Error; }
    r := Ok(Attribute(None, buf), c);
  }

  /** The whole parser. It ends for every text, and every turn of its loop that does not fail consumes some of it. */
  method ParseContextQuery(q: string) returns (r: Option<Query>)
    requires NulFree(q)
    ensures r == Parse(q)
  {
    hide Item, Property, Wildcard;
    if q == "" { return Some(Query(false, [])); }
    var abs, i := q[0] == '/', 0;
    if abs { i := 1; }
    if IsDelimiter(At(q, i)) { return None; }
    var parts: seq<Part>, attrs: Part := [], [];
    while i < |q|
      invariant i <= |q| && (i < |q| ==> !IsDelimiter(q[i]))
      invariant Parts(q, if abs then 1 else 0, [], []) == Parts(q, i, parts, attrs)
      decreases |q| - i
    {
      var a := ParseItem(q, i);
      if a.Error? { return None; }
      attrs, i := attrs + [a.value], a.end;
      if At(q, i) == '/' {
        parts, attrs, i := parts + [attrs], [], i + 1;
        if IsDelimiter(At(q, i)) { return None; }
      } else if At(q, i) == ',' {
        i := i + 1;
        if IsDelimiter(At(q, i)) { return None; }
      }
    }
    r := Some(Query(abs, parts + [attrs]));
  }

  method ParseItem(q: string, i: nat) returns (r: Parsed<Attribute>)
    requires NulFree(q) && i < |q|
    ensures r == Item(q, i)
  {
    hide Property, Wildcard;
    if q[i] == '*' { r := ParseWildcard(q, i); } else { r := ParseProperty(q, i); }
  }

  // ----- the text of a query -----

  function Escape(v: string): string {
    if v == "" then "" else (if v[0] == '"' || v[0] == '\\' then ['\\', v[0]] else [v[0]]) + Escape(v[1..])
  }

  function Quote(v: string): string { "\"" + (Escape(v) + "\"") }

  function PrintAttribute(a: Attribute): string {
    match a.name
    case None => Quote(a.value)
    case Some(n) => Quote(n) + ("=" + Quote(a.value))
  }

  function PrintPart(p: Part): string {
    if p == [] then "" else if |p| == 1 then PrintAttribute(p[0]) else PrintAttribute(p[0]) + ("," + PrintPart(p[1..]))
  }

  function PrintParts(ps: seq<Part>): string {
    if ps == [] then "" else if |ps| == 1 then PrintPart(ps[0]) else PrintPart(ps[0]) + ("/" + PrintParts(ps[1..]))
  }

  function Print(x: Query): string { (if x.abs then "/" else "") + PrintParts(x.parts) }

  /** `t` stands at position `i` of `q`. */
  predicate Stands(q: string, i: nat, t: string) { i + |t| <= |q| && q[i..i + |t|] == t }

  lemma StandsSplit(q: string, i: nat, a: string, b: string)
    requires Stands(q, i, a + b)
    ensures Stands(q, i, a) && Stands(q, i + |a|, b)
  {
    var t := q[i..i + |a + b|];
    assert q[i..i + |a|] == t[..|a|] == a;
    assert q[i + |a|..i + |a| + |b|] == t[|a|..] == b;
  }

  lemma StandsAt(q: string, i: nat, t: string, k: nat)
    requires Stands(q, i, t) && k < |t|
    ensures i + k < |q| && q[i + k] == t[k]
  {
    assert q[i..i + |t|][k] == q[i + k];
  }

  lemma {:induction false} UnquoteEscape(q: string, i: nat, v: string, acc: string)
    requires Stands(q, i, Escape(v) + "\"")
    ensures Unquote(q, i, acc) == Ok(acc + v, i + |Escape(v)| + 1)
    decreases |v|
  {
    if v == "" {
      StandsAt(q, i, Escape(v) + "\"", 0);
      assert acc + v == acc;
    } else {
      var c, rest := v[0], v[1..];
      var first := if c == '"' || c == '\\' then ['\\', c] else [c];
      assert Escape(v) + "\"" == first + (Escape(rest) + "\"");
      StandsSplit(q, i, first, Escape(rest) + "\"");
      StandsAt(q, i, first, 0);
      if |first| == 2 { StandsAt(q, i, first, 1); }
      UnquoteEscape(q, i + |first|, rest, acc + [c]);
      assert acc + [c] + rest == acc + v;
    }
  }

  lemma TextQuote(q: string, i: nat, v: string)
    requires Stands(q, i, Quote(v))
    ensures i < |q| && q[i] == '"' && Text(q, i) == Ok(v, i + |Quote(v)|) && Value(q, i) == Ok(v, i + |Quote(v)|)
  {
    hide Escape, Unquote;
    StandsSplit(q, i, "\"", Escape(v) + "\"");
    StandsAt(q, i, "\"", 0);
    UnquoteEscape(q, i + 1, v, "");
    assert "" + v == v;
  }

  lemma PropertyOf(q: string, i: nat, n: string, j: nat, v: string, e: nat)
    requires i <= |q| && j <= |q| && Text(q, i) == Ok(n, j)
    ensures At(q, j) != '=' ==> Property(q, i) == Ok(Attribute(None, n), j)
    ensures At(q, j) == '=' && !IsDelimiter(At(q, j + 1)) && j + 1 <= |q| && Value(q, j + 1) == Ok(v, e) && At(q, e) != '=' ==>
              Property(q, i) == Ok(Attribute(Some(n), v), e)
  {
    hide Text, Value;
  }

  /** A printed condition, followed by anything but an equals sign, is read back. */
  lemma ItemPrinted(q: string, i: nat, a: Attribute)
    requires NulFree(q) && Stands(q, i, PrintAttribute(a)) && At(q, i + |PrintAttribute(a)|) != '='
    ensures i < |q| && q[i] == '"' && Item(q, i) == Ok(a, i + |PrintAttribute(a)|)
  {
    hide Quote, Text, Value, Wildcard, Property, Stands;
    match a.name {
      case None =>
        TextQuote(q, i, a.value);
        PropertyOf(q, i, a.value, i + |Quote(a.value)|, "", 0);
      case Some(n) =>
        NamedPrinted(q, i, n, a.value);
    }
  }

  lemma NamedPrinted(q: string, i: nat, n: string, v: string)
    requires Stands(q, i, Quote(n) + ("=" + Quote(v))) && At(q, i + |Quote(n) + ("=" + Quote(v))|) != '='
    ensures i < |q| && q[i] == '"' && Property(q, i) == Ok(Attribute(Some(n), v), i + |Quote(n) + ("=" + Quote(v))|)
  {
    hide Quote, Text, Value, Wildcard, Property, Stands;
    StandsSplit(q, i, Quote(n), "=" + Quote(v));
    StandsSplit(q, i + |Quote(n)|, "=", Quote(v));
    StandsAt(q, i + |Quote(n)|, "=", 0);
    TextQuote(q, i, n);
    TextQuote(q, i + |Quote(n)| + 1, v);
    PropertyOf(q, i, n, i + |Quote(n)|, v, i + |Quote(n)| + 1 + |Quote(v)|);
  }

  /** One turn of the loop, for an item that is accepted. */
  lemma PartsStep(q: string, i: nat, parts: seq<Part>, attrs: Part, a: Attribute, j: nat)
    requires NulFree(q) && i < |q| && !IsDelimiter(q[i]) && Item(q, i) == Ok(a, j)
    ensures i < j <= |q|
    ensures At(q, j) == '/' && !IsDelimiter(At(q, j + 1)) ==> Parts(q, i, parts, attrs) == Parts(q, j + 1, parts + [attrs + [a]], [])
    ensures At(q, j) == ',' && !IsDelimiter(At(q, j + 1)) ==> Parts(q, i, parts, attrs) == Parts(q, j + 1, parts, attrs + [a])
    ensures At(q, j) == '\0' ==> j == |q| && Parts(q, i, parts, attrs) == Ok(parts + [attrs + [a]], |q|)
  {
    hide Item;
  }

  /** A printed part, of text `t`, is read as a whole. */
  lemma {:induction false} PartPrinted(q: string, i: nat, parts: seq<Part>, attrs: Part, p: Part, t: string)
    requires NulFree(q) && p != [] && t == PrintPart(p) && Stands(q, i, t)
    requires At(q, i + |t|) == '\0' || (At(q, i + |t|) == '/' && !IsDelimiter(At(q, i + |t| + 1)))
    ensures At(q, i) == '"'
    ensures At(q, i + |t|) == '/' ==> Parts(q, i, parts, attrs) == Parts(q, i + |t| + 1, parts + [attrs + p], [])
    ensures At(q, i + |t|) == '\0' ==> Parts(q, i, parts, attrs) == Ok(parts + [attrs + p], |q|)
    decreases |p|
  {
    hide Item, PrintAttribute, Parts, Stands;
    if |p| == 1 {
      ItemPrinted(q, i, p[0]);
      PartsStep(q, i, parts, attrs, p[0], i + |t|);
      assert [p[0]] == p;
    } else {
      var a, rest := PrintAttribute(p[0]), PrintPart(p[1..]);
      Several(q, i, a, ',', rest);
      ItemPrinted(q, i, p[0]);
      PartPrinted(q, i + |a| + 1, parts, attrs + [p[0]], p[1..], rest);
      PartsStep(q, i, parts, attrs, p[0], i + |a|);
      assert attrs + [p[0]] + p[1..] == attrs + p;
    }
  }

  /** The pieces of a text in two parts. */
  lemma Several(q: string, i: nat, a: string, c: char, rest: string)
    requires Stands(q, i, a + ([c] + rest))
    ensures Stands(q, i, a) && At(q, i + |a|) == c && Stands(q, i + |a| + 1, rest)
    ensures |a + ([c] + rest)| == |a| + 1 + |rest|
    ensures rest != "" ==> At(q, i + |a| + 1) == rest[0]
  {
    StandsSplit(q, i, a, [c] + rest);
    StandsSplit(q, i + |a|, [c], rest);
    StandsAt(q, i + |a|, [c], 0);
    if rest != "" { StandsAt(q, i + |a| + 1, rest, 0); }
  }

  lemma FirstQuotePart(p: Part)
    requires p != []
    ensures PrintPart(p) != "" && PrintPart(p)[0] == '"'
  {
    assert PrintAttribute(p[0])[0] == '"';
  }

  predicate AllNonEmpty(ps: seq<Part>) { forall k :: 0 <= k < |ps| ==> ps[k] != [] }

  lemma FirstQuote(ps: seq<Part>)
    requires ps != [] && AllNonEmpty(ps)
    ensures PrintParts(ps) != "" && PrintParts(ps)[0] == '"'
  {
    FirstQuotePart(ps[0]);
  }

  lemma {:induction false} PartsPrinted(q: string, i: nat, parts: seq<Part>, ps: seq<Part>, t: string)
    requires NulFree(q) && ps != [] && AllNonEmpty(ps) && t == PrintParts(ps) && Stands(q, i, t) && i + |t| == |q|
    ensures At(q, i) == '"' && Parts(q, i, parts, []) == Ok(parts + ps, |q|)
    decreases |ps|
  {
    hide PrintPart, Parts, Stands;
    var p := ps[0];
    assert [] + p == p;
    if |ps| == 1 {
      PartPrinted(q, i, parts, [], p, t);
      assert parts + [p] == parts + ps;
    } else {
      var a, rest := PrintPart(p), PrintParts(ps[1..]);
      FirstQuote(ps[1..]);
      Several(q, i, a, '/', rest);
      PartsPrinted(q, i + |a| + 1, parts + [p], ps[1..], rest);
      PartPrinted(q, i, parts, [], p, a);
      assert parts + [p] + ps[1..] == parts + ps;
    }
  }

  /** Every query, whatever its names and values contain, is read back from its text. */
  lemma RoundTrip(x: Query)
    requires AllNonEmpty(x.parts) && (x.parts == [] ==> !x.abs) && NulFree(Print(x))
    ensures Parse(Print(x)) == Some(x)
  {
    hide PrintParts, Parts;
    var q := Print(x);
    if x.parts == [] {
      NothingPrinted(x);
    } else {
      var i := if x.abs then 1 else 0;
      FirstQuote(x.parts);
      assert q[i..] == PrintParts(x.parts);
      assert q[i..|q|] == q[i..];
      PartsPrinted(q, i, [], x.parts, PrintParts(x.parts));
      assert [] + x.parts == x.parts;
    }
  }

  lemma NothingPrinted(x: Query)
    requires x.parts == [] && !x.abs
    ensures Print(x) == "" && x == Query(false, [])
  {
  }
}
