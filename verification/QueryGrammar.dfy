/** The language of context queries as a grammar: syntax trees, their texts and their meanings. The parser accepts exactly the
    texts of the trees. */
module QueryGrammar {
  import opened Wrappers
  import opened QueryMatch
  import opened QueryParse

  /** A name or value, without quotes or in quotes. */
  datatype Word = Bare(text: string) | Quoted(text: string)

  datatype Condition = Star | StarStar | Named(word: Word) | Equals(name: Word, value: Word)

  /** What may come between two conditions. A condition that ends with a quote needs no separator. */
  datatype Separator = Slash | Comma | Nothing

  datatype Rest = End | Then(sep: Separator, condition: Condition, rest: Rest)

  datatype Tree = Empty | Written(abs: bool, condition: Condition, rest: Rest)

  // ----- texts -----

  function WordText(w: Word): string { if w.Bare? then w.text else Quote(w.text) }

  function ConditionText(c: Condition): string {
    match c
    case Star => "*"
    case StarStar => "**"
    case Named(w) => WordText(w)
    case Equals(n, v) => WordText(n) + ("=" + WordText(v))
  }

  function SeparatorText(s: Separator): string {
    match s
    case Slash => "/"
    case Comma => ","
    case Nothing => ""
  }

  function RestText(r: Rest): string {
    match r
    case End => ""
    case Then(s, c, rest) => SeparatorText(s) + (ConditionText(c) + RestText(rest))
  }

  function TreeText(t: Tree): string {
    match t
    case Empty => ""
    case Written(abs, c, rest) => (if abs then "/" else "") + (ConditionText(c) + RestText(rest))
  }

  // ----- which trees are well-formed -----

  predicate Symbols(s: string) { forall k :: 0 <= k < |s| ==> IsSymbol(s[k]) }

  predicate Digits(s: string) { forall k :: 0 <= k < |s| ==> IsDigit(s[k]) }

  predicate WordOk(w: Word) { w.Bare? ==> w.text != "" && Symbols(w.text) }

  /** A value that begins with a digit is a number. */
  predicate ValueOk(w: Word) { WordOk(w) && (w.Bare? && IsDigit(w.text[0]) ==> Digits(w.text)) }

  predicate ConditionOk(c: Condition) {
    match c
    case Star => true
    case StarStar => true
    case Named(w) => WordOk(w)
    case Equals(n, v) => WordOk(n) && ValueOk(v)
  }

  /** What may follow a condition: only the next part after a wildcard, and not another condition directly after a bare word. */
  predicate Follows(c: Condition, r: Rest) {
    match c
    case Star => r.End? || r.sep == Slash
    case StarStar => r.End? || r.sep == Slash
    case Named(w) => w.Bare? ==> r.End? || r.sep != Nothing
    case Equals(_, v) => v.Bare? ==> r.End? || r.sep != Nothing
  }

  predicate RestOk(c: Condition, r: Rest)
    decreases r
  {
    ConditionOk(c) && Follows(c, r) && (r.Then? ==> RestOk(r.condition, r.rest))
  }

  predicate TreeOk(t: Tree) { t.Written? ==> RestOk(t.condition, t.rest) }

  // ----- meanings -----

  function Meaning(c: Condition): Attribute {
    match c
    case Star => Attribute(None, "*")
    case StarStar => Attribute(None, "**")
    case Named(w) => Attribute(None, w.text)
    case Equals(n, v) => Attribute(Some(n.text), v.text)
  }

  /** The parts after the finished `parts` and the conditions `attrs` of the current one. */
  function PartsOf(parts: seq<Part>, attrs: Part, r: Rest): seq<Part>
    decreases r
  {
    match r
    case End => parts + [attrs]
    case Then(s, c, rest) =>
      if s == Slash then PartsOf(parts + [attrs], [Meaning(c)], rest) else PartsOf(parts, attrs + [Meaning(c)], rest)
  }

  function QueryOf(t: Tree): Query {
    match t
    case Empty => Query(false, [])
    case Written(abs, c, rest) => Query(abs, PartsOf([], [Meaning(c)], rest))
  }

  /** An example: the tree of a query, its text and its meaning. */
  function Sample(): Tree {
    Written(true, Named(Bare("a")), Then(Comma, Equals(Bare("b"), Quoted("c")), Then(Slash, StarStar, End)))
  }

  lemma SampleTree()
    ensures TreeOk(Sample()) && TreeText(Sample()) == "/a,b=\"c\"/**"
    ensures QueryOf(Sample()) == Query(true, [[Attribute(None, "a"), Attribute(Some("b"), "c")], [Attribute(None, "**")]])
    ensures ConditionText(Star) == "*" && Meaning(Star) == Attribute(None, "*")
  {
    Quotes();
    SampleText(Equals(Bare("b"), Quoted("c")));
    var a, b, c := Attribute(None, "a"), Attribute(Some("b"), "c"), Attribute(None, "**");
    assert [a] + [b] == [a, b] && [] + [[a, b]] == [[a, b]] && [[a, b]] + [[c]] == [[a, b], [c]];
    assert PartsOf([[a, b]], [c], End) == [[a, b], [c]];
    assert PartsOf([], [a, b], Then(Slash, StarStar, End)) == PartsOf([[a, b]], [c], End);
  }

  lemma SampleText(e: Condition)
    requires ConditionText(e) == "b=\"c\""
    ensures TreeText(Written(true, Named(Bare("a")), Then(Comma, e, Then(Slash, StarStar, End)))) == "/a,b=\"c\"/**"
  {
    SampleRest();
    assert RestText(Then(Comma, e, Then(Slash, StarStar, End))) == "," + (ConditionText(e) + "/**");
    hide RestText;
    assert "b=\"c\"" + "/**" == "b=\"c\"/**";
    assert "," + "b=\"c\"/**" == ",b=\"c\"/**";
    assert "a" + ",b=\"c\"/**" == "a,b=\"c\"/**";
    assert "/" + "a,b=\"c\"/**" == "/a,b=\"c\"/**";
  }

  lemma SampleRest()
    ensures RestText(Then(Slash, StarStar, End)) == "/**"
  {
    assert RestText(End) == "";
    assert "/" + ("**" + "") == "/**";
  }

  lemma Quotes()
    ensures Quote("c") == "\"c\"" && Quote("a\"\\") == "\"a\\\"\\\\\"" && Quote("") == "\"\""
    ensures ConditionText(Equals(Bare("b"), Quoted("c"))) == "b=\"c\""
  {
    assert Escape("") == "";
    EscapeOne('c', "");
    EscapeOne('\\', "");
    EscapeOne('"', "\\");
    EscapeOne('a', "\"\\");
    assert "c" == ['c'] + "" && "\\" == ['\\'] + "" && "\"\\" == ['"'] + "\\" && "a\"\\" == ['a'] + "\"\\";
  }

  lemma EscapeOne(c: char, v: string)
    ensures Escape([c] + v) == (if c == '"' || c == '\\' then ['\\', c] else [c]) + Escape(v)
  {
    assert ([c] + v)[1..] == v;
  }

  // ----- every text of a tree is accepted, with the tree's meaning -----

  lemma {:induction false} RunOf(q: string, i: nat, s: string, digits: bool)
    requires Stands(q, i, s) && (if digits then Digits(s) else Symbols(s))
    requires !(if digits then IsDigit(At(q, i + |s|)) else IsSymbol(At(q, i + |s|)))
    ensures RunEnd(q, i, digits) == i + |s|
    decreases |s|
  {
    if s != "" {
      StandsAt(q, i, s, 0);
      assert s == [s[0]] + s[1..];
      StandsSplit(q, i, [s[0]], s[1..]);
      RunOf(q, i + 1, s[1..], digits);
    }
  }

  /** Where a word ends, and whether it could be mistaken for a longer one. */
  ghost predicate WordEnds(q: string, j: nat, w: Word) { w.Bare? ==> IsDelimiter(At(q, j)) }

  lemma WordRead(q: string, i: nat, w: Word)
    requires NulFree(q) && WordOk(w) && Stands(q, i, WordText(w)) && WordEnds(q, i + |WordText(w)|, w)
    ensures i < |q| && !IsDelimiter(q[i]) && q[i] != '*' && Text(q, i) == Ok(w.text, i + |WordText(w)|)
  {
    if w.Bare? {
      StandsAt(q, i, w.text, 0);
      RunOf(q, i, w.text, false);
    } else {
      TextQuote(q, i, w.text);
    }
  }

  lemma ValueRead(q: string, i: nat, w: Word)
    requires NulFree(q) && ValueOk(w) && Stands(q, i, WordText(w)) && WordEnds(q, i + |WordText(w)|, w) && At(q, i + |WordText(w)|) != '='
    ensures i < |q| && !IsDelimiter(q[i]) && Value(q, i) == Ok(w.text, i + |WordText(w)|)
  {
    WordRead(q, i, w);
    if w.Bare? && IsDigit(q[i]) {
      StandsAt(q, i, w.text, 0);
      RunOf(q, i, w.text, true);
    }
  }

  /** A condition is read as a whole if what comes after it does not run into it. */
  ghost predicate EndsAt(q: string, j: nat, c: Condition) {
    match c
    case Star => At(q, j) == '\0' || At(q, j) == '/'
    case StarStar => At(q, j) == '\0' || At(q, j) == '/'
    case Named(w) => WordEnds(q, j, w) && At(q, j) != '='
    case Equals(_, v) => WordEnds(q, j, v) && At(q, j) != '='
  }

  lemma ConditionRead(q: string, i: nat, c: Condition)
    requires NulFree(q) && ConditionOk(c) && Stands(q, i, ConditionText(c)) && EndsAt(q, i + |ConditionText(c)|, c)
    ensures i < |q| && !IsDelimiter(q[i]) && Item(q, i) == Ok(Meaning(c), i + |ConditionText(c)|)
  {
    hide Item, WordText, WordOk, ValueOk, WordEnds, Stands, NulFree;
    match c {
      case Star => StarRead(q, i, "*");
      case StarStar => StarRead(q, i, "**");
      case Named(w) => NamedRead(q, i, w);
      case Equals(n, v) => EqualsRead(q, i, n, v);
    }
  }

  lemma NamedRead(q: string, i: nat, w: Word)
    requires NulFree(q) && WordOk(w) && Stands(q, i, WordText(w)) && WordEnds(q, i + |WordText(w)|, w) && At(q, i + |WordText(w)|) != '='
    ensures i < |q| && !IsDelimiter(q[i]) && Item(q, i) == Ok(Attribute(None, w.text), i + |WordText(w)|)
  {
    hide Text, Value, WordText, WordOk, WordEnds, Property;
    WordRead(q, i, w);
    StandsEnd(q, i, WordText(w));
    PropertyOf(q, i, w.text, i + |WordText(w)|, "", 0);
  }

  lemma StandsEnd(q: string, i: nat, t: string)
    requires Stands(q, i, t)
    ensures i + |t| <= |q|
  {
  }

  lemma StarRead(q: string, i: nat, s: string)
    requires NulFree(q) && (s == "*" || s == "**") && Stands(q, i, s) && (At(q, i + |s|) == '\0' || At(q, i + |s|) == '/')
    ensures i < |q| && !IsDelimiter(q[i]) && Item(q, i) == Ok(Attribute(None, s), i + |s|)
  {
    StandsAt(q, i, s, 0);
    if |s| == 2 { StandsAt(q, i, s, 1); }
  }

  lemma EqualsRead(q: string, i: nat, n: Word, v: Word)
    requires NulFree(q) && WordOk(n) && ValueOk(v) && Stands(q, i, WordText(n) + ("=" + WordText(v)))
    requires var j := i + |WordText(n) + ("=" + WordText(v))|; WordEnds(q, j, v) && At(q, j) != '='
    ensures i < |q| && !IsDelimiter(q[i])
    ensures Item(q, i) == Ok(Attribute(Some(n.text), v.text), i + |WordText(n) + ("=" + WordText(v))|)
  {
    hide Text, Value, WordText, WordOk, ValueOk, Property;
    Several(q, i, WordText(n), '=', WordText(v));
    WordRead(q, i, n);
    ValueRead(q, i + |WordText(n)| + 1, v);
    PropertyOf(q, i, n.text, i + |WordText(n)|, v.text, i + |WordText(n)| + 1 + |WordText(v)|);
  }

  lemma FirstOf(c: Condition)
    requires ConditionOk(c)
    ensures ConditionText(c) != "" && !IsDelimiter(ConditionText(c)[0])
  {
  }

  /** What follows a condition in a text does not run into it. */
  lemma EndsBefore(q: string, j: nat, c: Condition, r: Rest)
    requires NulFree(q) && RestOk(c, r) && Stands(q, j, RestText(r)) && j + |RestText(r)| == |q|
    ensures EndsAt(q, j, c) && At(q, j) != '='
    ensures match r case End => j == |q| case Then(s, _, _) => At(q, j) == (match s case Slash => '/' case Comma => ',' case Nothing => At(q, j))
  {
    if r.Then? {
      FirstOf(r.condition);
      hide ConditionText, ConditionOk;
      StandsAt(q, j, RestText(r), 0);
    }
  }

  lemma {:induction false} RestRead(q: string, i: nat, parts: seq<Part>, attrs: Part, c: Condition, r: Rest)
    requires NulFree(q) && RestOk(c, r) && Stands(q, i, ConditionText(c) + RestText(r)) && i + |ConditionText(c) + RestText(r)| == |q|
    ensures i < |q| && !IsDelimiter(q[i]) && Parts(q, i, parts, attrs) == Ok(PartsOf(parts, attrs + [Meaning(c)], r), |q|)
    decreases r
  {
    hide Item, ConditionText, ConditionOk, Stands, EndsAt, Parts, RestText;
    var j := i + |ConditionText(c)|;
    StandsSplit(q, i, ConditionText(c), RestText(r));
    EndsBefore(q, j, c, r);
    ConditionRead(q, i, c);
    PartsStep(q, i, parts, attrs, Meaning(c), j);
    if r.Then? {
      var k := j + |SeparatorText(r.sep)|;
      RestSplit(q, j, r);
      if r.sep == Slash {
        RestRead(q, k, parts + [attrs + [Meaning(c)]], [], r.condition, r.rest);
        assert [] + [Meaning(r.condition)] == [Meaning(r.condition)];
      } else {
        RestRead(q, k, parts, attrs + [Meaning(c)], r.condition, r.rest);
        if r.sep == Nothing { NoSeparator(q, i, parts, attrs, Meaning(c), j); }
      }
    }
  }

  lemma RestSplit(q: string, j: nat, r: Rest)
    requires r.Then? && Stands(q, j, RestText(r))
    ensures Stands(q, j + |SeparatorText(r.sep)|, ConditionText(r.condition) + RestText(r.rest))
    ensures |RestText(r)| == |SeparatorText(r.sep)| + |ConditionText(r.condition) + RestText(r.rest)|
  {
    hide ConditionText, RestText, SeparatorText, Stands;
    RestTextIs(r);
    StandsSplit(q, j, SeparatorText(r.sep), ConditionText(r.condition) + RestText(r.rest));
  }

  /** A condition directly after another one belongs to the same part. */
  lemma NoSeparator(q: string, i: nat, parts: seq<Part>, attrs: Part, a: Attribute, j: nat)
    requires NulFree(q) && i < |q| && !IsDelimiter(q[i]) && Item(q, i) == Ok(a, j) && j < |q| && !IsDelimiter(q[j])
    ensures Parts(q, i, parts, attrs) == Parts(q, j, parts, attrs + [a])
  {
    hide Item;
  }

  lemma StandsBehind(q: string, a: string, b: string)
    requires q == a + b
    ensures Stands(q, |a|, b) && |a| + |b| == |q| && (b != "" ==> q[|a|] == b[0])
  {
  }

  /** The text of a tree is parsed to the meaning of the tree. */
  lemma ParsedAs(t: Tree)
    requires TreeOk(t) && NulFree(TreeText(t))
    ensures Parse(TreeText(t)) == Some(QueryOf(t))
  {
    var q := TreeText(t);
    if t.Written? {
      var body := ConditionText(t.condition) + RestText(t.rest);
      var i := if t.abs then 1 else 0;
      hide ConditionText, RestText, Parts, RestOk, Stands;
      StandsBehind(q, if t.abs then "/" else "", body);
      RestRead(q, i, [], [], t.condition, t.rest);
      assert [] + [Meaning(t.condition)] == [Meaning(t.condition)];
    }
  }

  // ----- every text that is accepted is the text of a tree -----

  lemma {:induction false} RunIs(q: string, i: nat, digits: bool)
    requires i <= |q|
    ensures var s := q[i..RunEnd(q, i, digits)]; if digits then Digits(s) else Symbols(s)
    ensures var j := RunEnd(q, i, digits); j < |q| ==> !(if digits then IsDigit(q[j]) else IsSymbol(q[j]))
    decreases |q| - i
  {
    if i < |q| && (if digits then IsDigit(q[i]) else IsSymbol(q[i])) {
      RunIs(q, i + 1, digits);
      var j := RunEnd(q, i, digits);
      assert q[i..j] == [q[i]] + q[i + 1..j];
    }
  }

  /** A quoted string that is accepted is the escaped form of what is read. */
  lemma {:induction false} UnquoteIs(q: string, i: nat, acc: string) returns (v: string)
    requires i <= |q| && Unquote(q, i, acc).Ok?
    ensures var r := Unquote(q, i, acc); r.value == acc + v && i < r.end <= |q| && q[i..r.end] == Escape(v) + "\""
    decreases |q| - i
  {
    var j := Unquote(q, i, acc).end;
    if At(q, i) == '"' {
      v := "";
      assert q[i..i + 1] == "\"";
    } else {
      var n := if q[i] == '\\' then 2 else 1;
      var c := q[i + n - 1];
      v := UnquoteIs(q, i + n, acc + [c]);
      assert q[i..j] == q[i..i + n] + q[i + n..j];
      EscapeOne(c, v);
      assert acc + [c] + v == acc + ([c] + v);
      v := [c] + v;
    }
  }

  lemma WordIs(q: string, i: nat) returns (w: Word)
    requires NulFree(q) && i < |q| && !IsDelimiter(q[i]) && Text(q, i).Ok?
    ensures var r := Text(q, i); WordOk(w) && w.text == r.value && i < r.end <= |q| && q[i..r.end] == WordText(w) && WordEnds(q, r.end, w)
  {
    var r := Text(q, i);
    if q[i] == '"' {
      var v := UnquoteIs(q, i + 1, "");
      assert q[i..r.end] == [q[i]] + q[i + 1..r.end];
      assert "" + v == v;
      w := Quoted(v);
    } else {
      RunIs(q, i, false);
      w := Bare(r.value);
    }
  }

  lemma ValueIs(q: string, i: nat) returns (w: Word)
    requires NulFree(q) && i < |q| && !IsDelimiter(q[i]) && Value(q, i).Ok?
    ensures var r := Value(q, i); ValueOk(w) && w.text == r.value && i < r.end <= |q| && q[i..r.end] == WordText(w) && WordEnds(q, r.end, w)
  {
    if IsDigit(q[i]) {
      RunIs(q, i, true);
      w := Bare(Value(q, i).value);
    } else {
      w := WordIs(q, i);
      if w.Bare? { assert w.text[0] == q[i]; }
    }
  }

  lemma ConditionIs(q: string, i: nat) returns (c: Condition)
    requires NulFree(q) && i < |q| && !IsDelimiter(q[i]) && Item(q, i).Ok?
    ensures var r := Item(q, i);
            ConditionOk(c) && Meaning(c) == r.value && i < r.end <= |q| && q[i..r.end] == ConditionText(c) && EndsAt(q, r.end, c)
  {
    if q[i] == '*' {
      hide Property;
      c := if At(q, i + 1) == '*' then StarStar else Star;
    } else {
      hide Property;
      c := PropertyIs(q, i);
    }
  }

  lemma PropertyIs(q: string, i: nat) returns (c: Condition)
    requires NulFree(q) && i < |q| && !IsDelimiter(q[i]) && Property(q, i).Ok?
    ensures var r := Property(q, i);
            ConditionOk(c) && Meaning(c) == r.value && i < r.end <= |q| && q[i..r.end] == ConditionText(c) && EndsAt(q, r.end, c)
  {
    hide Text, Value, WordText, WordOk, ValueOk, WordEnds, NulFree;
    var n := WordIs(q, i);
    var m := Text(q, i).end;
    if At(q, m) != '=' {
      c := Named(n);
    } else {
      AtInside(q, m);
      AtInside(q, m + 1);
      var v := ValueIs(q, m + 1);
      Joined(q, i, m, Property(q, i).end);
      c := Equals(n, v);
    }
  }

  lemma AtInside(q: string, i: nat)
    ensures At(q, i) != '\0' ==> i < |q| && q[i] == At(q, i)
  {
  }

  lemma Joined(q: string, i: nat, m: nat, j: nat)
    requires i <= m < j <= |q| && q[m] == '='
    ensures q[i..j] == q[i..m] + ("=" + q[m + 1..j])
  {
  }

  lemma {:induction false} RestIs(q: string, i: nat, parts: seq<Part>, attrs: Part) returns (c: Condition, r: Rest)
    requires NulFree(q) && i < |q| && !IsDelimiter(q[i]) && Parts(q, i, parts, attrs).Ok?
    ensures RestOk(c, r) && q[i..] == ConditionText(c) + RestText(r)
    decreases |q| - i
  {
    hide Item, ConditionText, ConditionOk, EndsAt, Parts, RestText, Follows, NulFree;
    PartsNext(q, i, parts, attrs);
    c := ConditionIs(q, i);
    var a := Item(q, i);
    var j := a.end;
    assert q[i..] == q[i..j] + q[j..];
    r := End;
    if j < |q| {
      var d, rest;
      if q[j] == '/' {
        d, rest := RestIs(q, j + 1, parts + [attrs + [a.value]], []);
        r := Then(Slash, d, rest);
      } else if q[j] == ',' {
        d, rest := RestIs(q, j + 1, parts, attrs + [a.value]);
        r := Then(Comma, d, rest);
      } else {
        d, rest := RestIs(q, j, parts, attrs + [a.value]);
        r := Then(Nothing, d, rest);
      }
    }
    RestJoined(q, j, r);
    EndMeans(q, j, c, r);
  }

  /** One turn of the loop: the item is accepted, and so is what comes after it. */
  lemma PartsNext(q: string, i: nat, parts: seq<Part>, attrs: Part)
    requires NulFree(q) && i < |q| && !IsDelimiter(q[i]) && Parts(q, i, parts, attrs).Ok?
    ensures Item(q, i).Ok?
    ensures var a := Item(q, i);
            i < a.end <= |q| && (a.end < |q| ==>
              if q[a.end] == '/' then
                a.end + 1 < |q| && !IsDelimiter(q[a.end + 1]) && Parts(q, a.end + 1, parts + [attrs + [a.value]], []).Ok?
              else if q[a.end] == ',' then
                a.end + 1 < |q| && !IsDelimiter(q[a.end + 1]) && Parts(q, a.end + 1, parts, attrs + [a.value]).Ok?
              else !IsDelimiter(q[a.end]) && Parts(q, a.end, parts, attrs + [a.value]).Ok?)
  {
    hide Item;
  }

  lemma RestJoined(q: string, j: nat, r: Rest)
    requires j <= |q| && (r.End? ==> j == |q|) && (r.Then? ==> j < |q|)
    requires r.Then? && r.sep == Slash ==> q[j] == '/' && q[j + 1..] == ConditionText(r.condition) + RestText(r.rest)
    requires r.Then? && r.sep == Comma ==> q[j] == ',' && q[j + 1..] == ConditionText(r.condition) + RestText(r.rest)
    requires r.Then? && r.sep == Nothing ==> q[j..] == ConditionText(r.condition) + RestText(r.rest)
    ensures q[j..] == RestText(r)
  {
    hide ConditionText, RestText;
    RestTextIs(r);
    if r.Then? { Separated(q, j, r.sep, ConditionText(r.condition) + RestText(r.rest)); }
  }

  lemma RestTextIs(r: Rest)
    ensures RestText(r) == if r.End? then "" else SeparatorText(r.sep) + (ConditionText(r.condition) + RestText(r.rest))
  {
    hide ConditionText, SeparatorText;
  }

  lemma Separated(q: string, j: nat, sep: Separator, body: string)
    requires j < |q| && (sep == Nothing ==> q[j..] == body) && (sep != Nothing ==> [q[j]] == SeparatorText(sep) && q[j + 1..] == body)
    ensures q[j..] == SeparatorText(sep) + body
  {
    if sep == Nothing { assert "" + body == body; } else { assert q[j..] == [q[j]] + q[j + 1..]; }
  }

  /** What was seen after a condition says what may follow it. */
  lemma EndMeans(q: string, j: nat, c: Condition, r: Rest)
    requires NulFree(q) && j <= |q| && EndsAt(q, j, c)
    requires match r case End => j == |q|
                    case Then(s, _, _) => j < |q| && s == if q[j] == '/' then Slash else if q[j] == ',' then Comma else Nothing
    ensures Follows(c, r)
  {
  }

  /** The parser accepts a text exactly if it is the text of a tree. */
  lemma Accepts(q: string)
    requires NulFree(q)
    ensures Parse(q).Some? <==> exists t :: TreeOk(t) && TreeText(t) == q
  {
    if Parse(q).Some? {
      var t := TreeOf(q);
    }
    if t :| TreeOk(t) && TreeText(t) == q { ParsedAs(t); }
  }

  lemma TreeOf(q: string) returns (t: Tree)
    requires NulFree(q) && Parse(q).Some?
    ensures TreeOk(t) && TreeText(t) == q && Parse(q) == Some(QueryOf(t))
  {
    if q == "" {
      t := Empty;
    } else {
      hide Parts, RestText, ConditionText, RestOk;
      var abs, i := q[0] == '/', if q[0] == '/' then 1 else 0;
      var c, r := RestIs(q, i, [], []);
      t := Written(abs, c, r);
      assert q == q[..i] + q[i..];
      assert q[..i] == if abs then "/" else "";
    }
    ParsedAs(t);
  }
}
