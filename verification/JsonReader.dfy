/** The reader that copies a JSON value from a stream into a buffer, character by character. */
module JsonReader {
  import opened Wrappers
  import opened JsonObject

  // ----- the rest of an array or object, as the loops see it -----

  function ArrayRest(t: string, i: nat): (r: Option<Copied>)
    ensures r.Some? ==> i < r.value.end <= |t|
  {
    var b := Spaces(t, i);
    if At(t, b) == ']' then Some(Copied("]", b + 1)) else Items(t, i)
  }

  function ObjectRest(t: string, i: nat): (r: Option<Copied>)
    ensures r.Some? ==> i < r.value.end <= |t|
  {
    var b := Spaces(t, i);
    if At(t, b) == '}' then Some(Copied("}", b + 1)) else Members(t, i)
  }

  lemma {:induction false} SpacesTwice(t: string, i: nat)
    ensures Spaces(t, Spaces(t, i)) == Spaces(t, i)
    decreases if i < |t| then |t| - i else 0
  {
    if IsSpace(At(t, i)) { SpacesTwice(t, i + 1); }
  }

  lemma SkipFromSpaces(t: string, i: nat)
    ensures Skip(t, Spaces(t, i)) == Skip(t, i)
  {
    SpacesTwice(t, i);
    hide Items, Members, StringEnd, NumberEnd, Word;
  }

  lemma ItemsFromSpaces(t: string, i: nat)
    ensures Items(t, Spaces(t, i)) == Items(t, i)
  {
    hide Skip, Spaces;
    SkipFromSpaces(t, i);
  }

  lemma MembersFromSpaces(t: string, i: nat)
    ensures Members(t, Spaces(t, i)) == Members(t, i)
  {
    hide Skip, Spaces;
    SkipFromSpaces(t, i);
  }

  lemma ItemsTurn(t: string, p: nat)
    ensures var x := Skip(t, p);
            Items(t, p) == if x.None? then None
                           else var b := Spaces(t, x.value.end);
                                if At(t, b) == ',' then Prefix(x.value.out + ",", Items(t, b + 1))
                                else if At(t, b) == ']' then Some(Copied(x.value.out + "]", b + 1))
                                else None
  {
    hide Skip, Spaces;
  }

  /** The turn of a member up to the end of its value; `None` if it is malformed. */
  function Member(t: string, p: nat): (r: Option<Copied>)
    ensures r.Some? ==> p < r.value.end <= |t|
  {
    var k := Skip(t, p);
    if k.None? || At(t, Spaces(t, k.value.end)) != ':' then None
    else
      var x := Skip(t, Spaces(t, k.value.end) + 1);
      if x.None? then None else Some(Copied(k.value.out + (":" + x.value.out), x.value.end))
  }

  lemma MembersTurn(t: string, p: nat)
    ensures var x := Member(t, p);
            Members(t, p) == if x.None? then None
                             else var b := Spaces(t, x.value.end);
                                  if At(t, b) == ',' then Prefix(x.value.out + ",", Members(t, b + 1))
                                  else if At(t, b) == '}' then Some(Copied(x.value.out + "}", b + 1))
                                  else None
  {
    hide Skip, Spaces;
  }

  lemma PrefixJoin(done: string, out: string, r: Option<Copied>)
    ensures Prefix(done, Prefix(out, r)) == Prefix(done + out, r)
  {
    if r.Some? { assert done + (out + r.value.out) == done + out + r.value.out; }
  }

  /** The end of the loop: the last piece of the copy. */
  lemma PrefixEnd(done: string, out: string, e: nat)
    ensures Prefix(done, Some(Copied(out, e))) == Some(Copied(done + out, e))
  {
  }

  /** The buffer after a value and the character that follows it. */
  lemma Appended(base: string, done: string, out: string, c: char)
    ensures base + done + out + [c] == base + (done + (out + [c]))
  {
  }

  lemma PrefixNothing(r: Option<Copied>)
    ensures Prefix("", r) == r
  {
    if r.Some? { assert "" + r.value.out == r.value.out; }
  }

  class ObjectReader {
    const text: string
    var pos: nat
    /** What has been copied. */
    var buf: string

    constructor (text: string, pos: nat)
      ensures this.text == text && this.pos == pos && buf == ""
    {
      this.text, this.pos, buf := text, pos, "";
    }

    method ReadWhitespace()
      modifies this`pos
      ensures pos == Spaces(text, old(pos))
    {
      while IsSpace(At(text, pos))
        invariant Spaces(text, old(pos)) == Spaces(text, pos)
        decreases if pos < |text| then |text| - pos else 0
      {
        pos := pos + 1;
      }
    }

    /** Read and copy one character; fails at the end of the message. */
    method SkipChar() returns (c: Option<char>)
      modifies this
      ensures if old(pos) < |text| then c == Some(text[old(pos)]) && pos == old(pos) + 1 && buf == old(buf) + [text[old(pos)]]
              else c == None && pos == old(pos) && buf == old(buf)
    {
      if pos >= |text| { return None; }
      c := Some(text[pos]);
      buf := buf + [text[pos]];
      pos := pos + 1;
    }

    static lemma WordDiffers(t: string, i: nat, w: string, k: nat)
      requires k < |w| && (i + k < |t| ==> t[i + k] != w[k])
      ensures Word(t, i, w).None?
    {
      if i + |w| <= |t| { assert t[i..i + |w|][k] == t[i + k]; }
    }

    method SkipRestOfWord(w: string) returns (ok: bool)
      requires 0 < pos <= |text| && w != "" && text[pos - 1] == w[0]
      modifies this
      ensures old(pos) <= pos <= |text| && (ok <==> Word(text, old(pos) - 1, w).Some?)
      ensures ok ==> pos == old(pos) - 1 + |w| && buf == old(buf) + w[1..]
    {
      var k := 1;
      while k < |w|
        invariant 1 <= k <= |w| && pos == old(pos) - 1 + k && pos <= |text|
        invariant text[old(pos) - 1..pos] == w[..k] && buf == old(buf) + w[1..k]
      {
        var c := SkipChar();
        if c != Some(w[k]) {
          WordDiffers(text, old(pos) - 1, w, k);
          return false;
        }
        assert w[..k + 1] == w[..k] + [w[k]] && w[1..k + 1] == w[1..k] + [w[k]];
        k := k + 1;
      }
      assert w[..k] == w && w[1..k] == w[1..];
      ok := true;
    }

    method SkipRestOfString() returns (ok: bool)
      requires pos <= |text|
      modifies this
      ensures old(pos) <= pos <= |text| && (ok <==> StringEnd(text, old(pos)).Some?)
      ensures ok ==> old(pos) <= pos == StringEnd(text, old(pos)).value && buf == old(buf) + text[old(pos)..pos]
    {
      while true
        invariant old(pos) <= pos <= |text| && StringEnd(text, old(pos)) == StringEnd(text, pos)
        invariant buf == old(buf) + text[old(pos)..pos]
        decreases |text| - pos
      {
        var c := SkipChar();
        if c.None? { return false; }
        if c.value == '"' { return true; }
        if c.value == '\\' {
          var d := SkipChar();
          if d.None? { return false; }
        }
      }
    }

    method SkipRestOfNumber()
      requires pos <= |text|
      modifies this
      ensures old(pos) <= pos <= |text| && pos == NumberEnd(text, old(pos)) && buf == old(buf) + text[old(pos)..pos]
    {
      while InNumber(At(text, pos))
        invariant old(pos) <= pos <= |text| && NumberEnd(text, old(pos)) == NumberEnd(text, pos)
        invariant buf == old(buf) + text[old(pos)..pos]
        decreases |text| - pos
      {
        var c := SkipChar();
      }
    }

    /** Copy one value of any kind into the buffer. */
    method SkipObject() returns (ok: bool)
      requires pos <= |text|
      modifies this
      ensures old(pos) <= pos <= |text| && (ok <==> Skip(text, old(pos)).Some?)
      ensures ok ==> Skip(text, old(pos)).value.end == pos && buf == old(buf) + Skip(text, old(pos)).value.out
      decreases |text| - pos, 0
    {
      hide Skip, Spaces, StringEnd, NumberEnd, Word, Items, Members, ArrayRest, ObjectRest;
      ReadWhitespace();
      SpacesBound(text, old(pos));
      ghost var a := pos;
      SkipCases(text, old(pos), a);
      var c := SkipChar();
      if c.None? { return false; }
      ghost var mid := buf;
      if c.value == 'n' {
        ok := SkipRestOfWord("null");
      } else if c.value == 'f' {
        ok := SkipRestOfWord("false");
      } else if c.value == 't' {
        ok := SkipRestOfWord("true");
      } else if c.value == '"' {
        ok := SkipRestOfString();
        if ok { First(text, a, pos); }
      } else if c.value == '-' || '0' <= c.value <= '9' {
        SkipRestOfNumber();
        First(text, a, pos);
        ok := true;
      } else if c.value == '[' {
        ok := SkipItems();
        if ok { Joined(old(buf), "[", ArrayRest(text, a + 1).value.out); }
      } else if c.value == '{' {
        ok := SkipMembers();
        if ok { Joined(old(buf), "{", ObjectRest(text, a + 1).value.out); }
      } else {
        ok := false;
      }
    }

    static lemma SpacesBound(t: string, i: nat)
      requires i <= |t|
      ensures i <= Spaces(t, i) <= |t|
    {
    }

    static lemma Joined(base: string, open: string, out: string)
      ensures base + open + out == base + (open + out)
    {
    }

    static lemma First(t: string, a: nat, e: nat)
      requires a < e <= |t|
      ensures forall s: string :: s + [t[a]] + t[a + 1..e] == s + t[a..e]
    {
      assert [t[a]] + t[a + 1..e] == t[a..e];
    }

    /** The function, case by case, as the method needs it. */
    static lemma SkipCases(t: string, i: nat, a: nat)
      requires a == Spaces(t, i) <= |t|
      ensures a == |t| ==> Skip(t, i) == None
      ensures a < |t| ==>
                var c := t[a];
                && (c == 'n' ==> Rest(Skip(t, i), Word(t, a, "null"), "null"[1..], a + 4, "n"))
                && (c == 'f' ==> Rest(Skip(t, i), Word(t, a, "false"), "false"[1..], a + 5, "f"))
                && (c == 't' ==> Rest(Skip(t, i), Word(t, a, "true"), "true"[1..], a + 4, "t"))
                && (c == '"' ==> (Skip(t, i).Some? <==> StringEnd(t, a + 1).Some?)
                                 && (Skip(t, i).Some? ==> Skip(t, i) == Some(Copied(t[a..StringEnd(t, a + 1).value], StringEnd(t, a + 1).value))))
                && (c == '-' || '0' <= c <= '9' ==> Skip(t, i) == Some(Copied(t[a..NumberEnd(t, a + 1)], NumberEnd(t, a + 1))))
                && (c == '[' ==> Skip(t, i) == Prefix("[", ArrayRest(t, a + 1)))
                && (c == '{' ==> Skip(t, i) == Prefix("{", ObjectRest(t, a + 1)))
                && (c !in "nft\"-0123456789[{" ==> Skip(t, i) == None)
    {
      hide Items, Members, StringEnd, NumberEnd;
      assert "[" + "]" == "[]" && "{" + "}" == "{}";
    }

    /** A word is copied as its first letter and the rest. */
    static ghost predicate Rest(r: Option<Copied>, word: Option<Copied>, tail: string, end: nat, first: string) {
      && (r.Some? <==> word.Some?)
      && (r.Some? ==> r.value.end == end && forall s: string :: s + first + tail == s + r.value.out)
    }

    /** The rest of an array after its opening bracket. */
    method SkipItems() returns (ok: bool)
      requires pos <= |text|
      modifies this
      ensures old(pos) <= pos <= |text| && (ok <==> ArrayRest(text, old(pos)).Some?)
      ensures ok ==> ArrayRest(text, old(pos)).value.end == pos && buf == old(buf) + ArrayRest(text, old(pos)).value.out
      decreases |text| - pos, 2
    {
      hide Skip, Items, Spaces;
      ghost var whole := ArrayRest(text, pos);
      ReadWhitespace();
      SpacesBound(text, old(pos));
      if At(text, pos) == ']' {
        var c := SkipChar();
        return true;
      }
      ItemsFromSpaces(text, old(pos));
      PrefixNothing(Items(text, pos));
      hide ArrayRest;
      ghost var done := "";
      assert old(buf) + done == old(buf);
      while true
        invariant old(pos) <= pos <= |text| && buf == old(buf) + done && whole == Prefix(done, Items(text, pos))
        decreases |text| - pos
      {
        ghost var p := pos;
        ItemsTurn(text, p);
        hide Prefix;
        ok := SkipObject();
        if !ok { return false; }
        ghost var out := Skip(text, p).value.out;
        SpacesBound(text, pos);
        ReadWhitespace();
        var c := SkipChar();
        if c.None? { return false; }
        Appended(old(buf), done, out, c.value);
        if c.value == ',' {
          PrefixJoin(done, out + ",", Items(text, pos));
          done := done + (out + ",");
        } else {
          if c.value == ']' { PrefixEnd(done, out + "]", pos); }
          return c.value == ']';
        }
      }
    }

    /** One member up to the end of its value. */
    method SkipMember() returns (ok: bool)
      requires pos <= |text|
      modifies this
      ensures old(pos) <= pos <= |text| && (ok <==> Member(text, old(pos)).Some?)
      ensures ok ==> Member(text, old(pos)).value.end == pos && buf == old(buf) + Member(text, old(pos)).value.out
      decreases |text| - pos, 1
    {
      hide Skip, Spaces;
      ok := SkipObject();
      if !ok { return; }
      SpacesBound(text, pos);
      ReadWhitespace();
      var c := SkipChar();
      if c != Some(':') { return false; }
      ok := SkipObject();
    }

    /** The rest of an object after its opening brace. */
    method SkipMembers() returns (ok: bool)
      requires pos <= |text|
      modifies this
      ensures old(pos) <= pos <= |text| && (ok <==> ObjectRest(text, old(pos)).Some?)
      ensures ok ==> ObjectRest(text, old(pos)).value.end == pos && buf == old(buf) + ObjectRest(text, old(pos)).value.out
      decreases |text| - pos, 2
    {
      hide Skip, Members, Spaces;
      ghost var whole := ObjectRest(text, pos);
      ReadWhitespace();
      SpacesBound(text, old(pos));
      if At(text, pos) == '}' {
        var c := SkipChar();
        return true;
      }
      MembersFromSpaces(text, old(pos));
      PrefixNothing(Members(text, pos));
      hide ObjectRest, Member;
      ghost var done := "";
      assert old(buf) + done == old(buf);
      while true
        invariant old(pos) <= pos <= |text| && buf == old(buf) + done && whole == Prefix(done, Members(text, pos))
        decreases |text| - pos
      {
        ghost var p := pos;
        MembersTurn(text, p);
        hide Prefix;
        ok := SkipMember();
        if !ok { return false; }
        ghost var out := Member(text, p).value.out;
        SpacesBound(text, pos);
        ReadWhitespace();
        var c := SkipChar();
        if c.None? { return false; }
        Appended(old(buf), done, out, c.value);
        if c.value == ',' {
          PrefixJoin(done, out + ",", Members(text, pos));
          done := done + (out + ",");
        } else {
          if c.value == '}' { PrefixEnd(done, out + "}", pos); }
          return c.value == '}';
        }
      }
    }
  }

  /** A value laid out with any whitespace is consumed exactly, and its copy has none of it. */
  method ReadValue(before: string, j: Layout, after: string) returns (ok: bool, out: string, end: nat)
    requires LayoutOk(j) && Ends(after, 0, j)
    ensures ok && out == Full(Bare(j)) && end == |before| + |Full(j)|
  {
    hide Skip, Full, Bare, LayoutOk;
    var r := new ObjectReader(before + Full(j) + after, |before|);
    ReadObject(before, j, after);
    ok := r.SkipObject();
    out, end := r.buf, r.pos;
    assert "" + out == out;
  }
}
