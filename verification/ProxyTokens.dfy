/** The tokens of commands that proxies relay: each proxy on the way to the server puts a letter in front, and takes it off the
    replies, so that a reply finds its way back and is not taken for one to a command of a proxy itself. Tokens are read into
    a buffer of limited size. */
module ProxyTokens {
  import opened Wrappers

  /** How much of a token is kept. */
  const LIMIT: nat := 255

  function Kept(token: string): (t: string)
    ensures |t| <= LIMIT
  {
    if |token| <= LIMIT then token else token[..LIMIT]
  }

  // ----- numbers -----

  predicate IsDigit(c: char) { '0' <= c <= '9' }

  predicate IsSpace(c: char) { c == ' ' || '\t' <= c <= '\r' }

  predicate Digits(s: string) { forall k :: 0 <= k < |s| ==> IsDigit(s[k]) }

  function Value(s: string): nat
    requires Digits(s)
  {
    if s == "" then 0 else 10 * Value(s[..|s| - 1]) + (s[|s| - 1] - '0') as nat
  }

  lemma OneMore(s: string, c: char)
    requires Digits(s) && IsDigit(c)
    ensures Digits(s + [c]) && Value(s + [c]) == 10 * Value(s) + (c - '0') as nat
  {
    assert (s + [c])[..|s|] == s;
  }

  /** The text of a token number. */
  function Decimal(n: nat): (s: string) {
    (if n >= 10 then Decimal(n / 10) else "") + ['0' + (n % 10) as char]
  }

  lemma {:induction false} DecimalDigits(n: nat)
    ensures Decimal(n) != "" && Digits(Decimal(n)) && Value(Decimal(n)) == n
  {
    var s := Decimal(n);
    if n >= 10 { DecimalDigits(n / 10); }
    assert s[..|s| - 1] == if n >= 10 then Decimal(n / 10) else "";
  }

  /** A token as a number of a machine word that has `words` values: the text up to its end, with the spaces and the sign that
      the conversion allows; the empty text is 0. */
  function Number(t: string, words: nat): Option<nat>
    requires words > 0
  {
    if t == "" then Some(0)
    else if IsSpace(t[0]) then (if Blank(t) then None else Number(t[1..], words))
    else
      var body := if t[0] == '-' || t[0] == '+' then t[1..] else t;
      if body == "" || !Digits(body) || Value(body) >= words then None
      else Some(if t[0] == '-' then (words - Value(body)) % words else Value(body))
  }

  predicate Blank(t: string) { forall k :: 0 <= k < |t| ==> IsSpace(t[k]) }

  lemma NumberOfDecimal(n: nat, words: nat)
    requires n < words
    ensures Number(Decimal(n), words) == Some(n)
  {
    DecimalDigits(n);
    assert IsDigit(Decimal(n)[0]);
  }

  // ----- relaying -----

  /** What a proxy writes for the token of a command. */
  function Relay(token: string): string { "R" + Kept(token) }

  /** What a proxy does with a reply: it is for one of its own commands, which are `pending`, or is passed on without the
      letter, or is an error. */
  datatype Reply = Own(number: nat) | PassedOn(token: string) | Unexpected

  function Return(token: string, pending: set<nat>, words: nat): Reply
    requires words > 0
  {
    var t := Kept(token);
    var n := Number(t, words);
    if n.Some? && n.value in pending then Own(n.value)
    else if t != "" && t[0] == 'R' then PassedOn(t[1..])
    else Unexpected
  }

  /** The token that `n` proxies pass to the next. */
  function Down(token: string, n: nat): string {
    if n == 0 then token else Relay(Down(token, n - 1))
  }

  /** What becomes of a reply at `proxies`, the first of which is next to the sender of the command: it is delivered to the
      sender, or the proxy at a position takes it for its own, or drops it. */
  datatype Fate = Delivered(token: string) | Taken(proxy: nat, number: nat) | Dropped(proxy: nat)

  function Up(token: string, proxies: seq<set<nat>>, words: nat): Fate
    requires words > 0
    decreases |proxies|
  {
    if proxies == [] then Delivered(Kept(token))
    else
      var last := |proxies| - 1;
      match Return(token, proxies[last], words)
      case Own(n) => Taken(last, n)
      case PassedOn(t) => Up(t, proxies[..last], words)
      case Unexpected => Dropped(last)
  }

  /** The reply of the server repeats the token as it has read it. */
  function Fated(token: string, proxies: seq<set<nat>>, words: nat): Fate
    requires words > 0
  {
    Up(Kept(Down(token, |proxies|)), proxies, words)
  }

  function Rs(n: nat): (s: string)
    ensures |s| == n && forall k :: 0 <= k < n ==> s[k] == 'R'
  {
    seq(n, _ => 'R')
  }

  /** The server sees one letter for each proxy and then the token, as far as that fits. */
  lemma {:induction false} DownIs(token: string, n: nat)
    ensures Kept(Down(token, n)) == Kept(Rs(n) + token)
  {
    if n == 0 {
      assert Rs(0) + token == token;
    } else {
      DownIs(token, n - 1);
      KeptTwice("R", Down(token, n - 1));
      KeptTwice("R", Rs(n - 1) + token);
      assert "R" + (Rs(n - 1) + token) == Rs(n) + token;
    }
  }

  lemma KeptTwice(a: string, b: string)
    ensures Kept(a + Kept(b)) == Kept(a + b)
  {
    if |b| > LIMIT { assert (a + b[..LIMIT])[..LIMIT] == (a + b)[..LIMIT]; }
  }

  /** A token with the letter is no number, so no proxy takes the reply for its own. */
  lemma NotOwn(token: string, pending: set<nat>, words: nat)
    requires words > 0 && token != "" && token[0] == 'R'
    ensures Return(token, pending, words) == PassedOn(Kept(token)[1..])
  {
    var t := Kept(token);
    assert t[0] == 'R' && !IsDigit(t[0]);
  }

  /** Each proxy on the way back takes one letter off. */
  lemma {:induction false} UpStrips(token: string, proxies: seq<set<nat>>, words: nat)
    requires words > 0 && |proxies| + |token| <= LIMIT
    ensures Up(Rs(|proxies|) + token, proxies, words) == Delivered(token)
    decreases |proxies|
  {
    var n := |proxies|;
    if n == 0 {
      assert Rs(0) + token == token;
    } else {
      var whole := Rs(n) + token;
      NotOwn(whole, proxies[n - 1], words);
      assert whole[1..] == Rs(n - 1) + token;
      UpStrips(token, proxies[..n - 1], words);
    }
  }

  /** Too many proxies: a proxy meets a reply without its letter, or with no token at all. */
  lemma {:induction false} UpRunsOut(k: nat, proxies: seq<set<nat>>, words: nat)
    requires words > 0 && k <= LIMIT && k < |proxies|
    ensures Up(Rs(k), proxies, words) == if 0 in proxies[|proxies| - 1 - k] then Taken(|proxies| - 1 - k, 0) else Dropped(|proxies| - 1 - k)
    decreases k
  {
    if k > 0 {
      NotOwn(Rs(k), proxies[|proxies| - 1], words);
      assert Rs(k)[1..] == Rs(k - 1);
      UpRunsOut(k - 1, proxies[..|proxies| - 1], words);
    } else {
      assert Rs(0) == "";
    }
  }

  /** The whole way, for any number of proxies with any commands of their own: the reply comes back to the sender of the
      command, as far as its token fits behind the letters; with more proxies than the buffer has room it is lost on the way. */
  lemma Routed(token: string, proxies: seq<set<nat>>, words: nat)
    requires words > 0
    ensures var n := |proxies|;
            Fated(token, proxies, words) ==
            if n <= LIMIT then Delivered(if n + |token| <= LIMIT then token else token[..LIMIT - n])
            else if 0 in proxies[n - 1 - LIMIT] then Taken(n - 1 - LIMIT, 0) else Dropped(n - 1 - LIMIT)
  {
    var n := |proxies|;
    DownIs(token, n);
    if n + |token| <= LIMIT {
      UpStrips(token, proxies, words);
    } else if n <= LIMIT {
      assert (Rs(n) + token)[..LIMIT] == Rs(n) + token[..LIMIT - n];
      UpStrips(token[..LIMIT - n], proxies, words);
    } else {
      assert (Rs(n) + token)[..LIMIT] == Rs(LIMIT);
      UpRunsOut(LIMIT, proxies, words);
    }
  }

  /** Every reply comes back with the token of its command if and only if the token and a letter for each proxy fit the buffer. */
  lemma RoundTrip(token: string, proxies: seq<set<nat>>, words: nat)
    requires words > 0
    ensures Fated(token, proxies, words) == Delivered(token) <==> |proxies| + |token| <= 255
  {
    Routed(token, proxies, words);
  }

  /** A token that fits the buffer but does not fit behind one letter: the sender gets a reply to a token it has not used. */
  lemma CutOff(token: string, pending: set<nat>, words: nat)
    requires words > 0 && |token| == 255
    ensures Kept(token) == token && Fated(token, [pending], words) == Delivered(token[..254])
  {
    Routed(token, [pending], words);
  }

  /** A proxy with a command of its own gets the reply to it, through any number of further proxies, and takes it as its own. */
  lemma OwnReply(n: nat, pending: set<nat>, proxies: seq<set<nat>>, words: nat)
    requires n in pending && n < words && |proxies| + |Decimal(n)| <= LIMIT
    ensures Fated(Decimal(n), proxies, words) == Delivered(Decimal(n)) && Return(Decimal(n), pending, words) == Own(n)
  {
    Routed(Decimal(n), proxies, words);
    NumberOfDecimal(n, words);
  }

  /** Examples: the token 5 behind two proxies, and the way back through a proxy that has a command 5 of its own. */
  lemma Examples(pending: set<nat>)
    requires 5 in pending
    ensures Down("5", 2) == "RR5"
    ensures Return("RR5", pending, 1000) == PassedOn("R5") && Return("5", pending, 1000) == Own(5)
    ensures Return("X5", pending, 1000) == Unexpected
  {
    TwoLetters();
    NotOwn("RR5", pending, 1000);
    DecimalTexts();
    NumberOfDecimal(5, 1000);
    NoNumber("X5", 1000, 0);
    hide Number, Decimal, Down, IsDigit, Digits;
    assert "RR5"[1..] == "R5" && "X5"[0] == 'X';
  }

  lemma TwoLetters()
    ensures Down("5", 2) == "RR5"
  {
    assert Down("5", 0) == "5";
    assert "R" + "5" == "R5" && "R" + "R5" == "RR5";
    assert Down("5", 1) == "R5";
  }

  lemma DecimalTexts()
    ensures Decimal(5) == "5" && Decimal(12) == "12"
  {
    assert Decimal(1) == "1" && "1" + "2" == "12";
  }

  /** What counts as a number: digits, with a sign and with spaces in front; a negative one wraps around. */
  lemma Numbers(t: string, words: nat)
    requires t != "" && Digits(t) && words > 0
    ensures Number(t, words) == Number("+" + t, words) == Number(" " + t, words) == if Value(t) < words then Some(Value(t)) else None
    ensures Number("-" + t, words) == if Value(t) < words then Some((words - Value(t)) % words) else None
    ensures Number("", words) == Some(0) && Number(" ", words) == None
  {
    assert IsDigit(t[0]);
    hide Value, Digits;
    assert ("+" + t)[1..] == t && ("-" + t)[1..] == t && (" " + t)[1..] == t;
    assert (" " + t)[1] == t[0];
  }

  lemma NoNumber(t: string, words: nat, k: nat)
    requires words > 0 && k < |t| && !IsDigit(t[k]) && t[k] != ' ' && !('\t' <= t[k] <= '\r') && t[k] != '+' && t[k] != '-'
    ensures Number(t, words) == None
  {
    if IsSpace(t[0]) {
      NoNumber(t[1..], words, k - 1);
    } else {
      var body := if t[0] == '-' || t[0] == '+' then t[1..] else t;
      assert body[k - (|t| - |body|)] == t[k];
    }
  }

  /** Two commands with different tokens, whoever sent them, are told apart by every proxy and by the server. */
  lemma Distinct(a: string, b: string, n: nat)
    requires a != b && n + |a| <= LIMIT && n + |b| <= LIMIT
    ensures Kept(Down(a, n)) != Kept(Down(b, n))
  {
    DownIs(a, n);
    DownIs(b, n);
    assert (Rs(n) + a)[n..] == a && (Rs(n) + b)[n..] == b;
  }
}
