/**
 * A JSON lexer that sees a text only as its tokens: strings, structural characters and everything
 * else as words, with insignificant whitespace dropped (sections 2 and 7 of RFC 8259). A byte is a
 * char; only ASCII bytes matter to the lexer.
 */
module JsonLexer {

  datatype Mode = Between | InWord(word: string) | InString(text: string) | InEscape(text: string)

  /** The tokens completed so far, and the one being read. */
  datatype State = State(tokens: seq<string>, mode: Mode)

  const START := State([], Between)

  predicate IsSpace(c: char) {
    c == ' ' || c == '\t' || c == '\r' || c == '\n'
  }

  predicate IsStructural(c: char) {
    c == '{' || c == '}' || c == '[' || c == ']' || c == ':' || c == ','
  }

  /** A character outside strings: whitespace separates, structural characters stand alone. */
  function Open(tokens: seq<string>, c: char): State {
    if IsSpace(c) then State(tokens, Between)
    else if c == '"' then State(tokens, InString([c]))
    else if IsStructural(c) then State(tokens + [[c]], Between)
    else State(tokens, InWord([c]))
  }

  function Feed(s: State, c: char): State {
    match s.mode
    case Between => Open(s.tokens, c)
    case InWord(w) =>
      if IsSpace(c) || c == '"' || IsStructural(c) then Open(s.tokens + [w], c) else s.(mode := InWord(w + [c]))
    case InString(t) =>
      if c == '\\' then s.(mode := InEscape(t + [c]))
      else if c == '"' then State(s.tokens + [t + [c]], Between)
      else s.(mode := InString(t + [c]))
    case InEscape(t) => s.(mode := InString(t + [c]))
  }

  function Lex(s: State, text: string): State {
    if text == "" then s else Feed(Lex(s, text[..|text| - 1]), text[|text| - 1])
  }

  lemma {:induction false} LexConcat(s: State, a: string, b: string)
    ensures Lex(s, a + b) == Lex(Lex(s, a), b)
  {
    if b == "" {
      assert a + b == a;
    } else {
      var n := |b| - 1;
      assert (a + b)[..|a + b| - 1] == a + b[..n];
      LexConcat(s, a, b[..n]);
    }
  }

  /** How many characters the tokens have kept. */
  function Kept(tokens: seq<string>): nat {
    if tokens == [] then 0 else Kept(tokens[..|tokens| - 1]) + |tokens[|tokens| - 1]|
  }

  function Weight(s: State): nat {
    Kept(s.tokens) + match s.mode
      case Between => 0
      case InWord(w) => |w|
      case InString(t) => |t|
      case InEscape(t) => |t|
  }

  lemma KeptOne(tokens: seq<string>, t: string)
    ensures Kept(tokens + [t]) == Kept(tokens) + |t|
  {
    assert (tokens + [t])[..|tokens|] == tokens;
  }

  predicate SameMode(s: State, s': State) {
    match s.mode
    case Between => s'.mode.Between?
    case InWord(_) => s'.mode.InWord?
    case InString(_) => s'.mode.InString?
    case InEscape(_) => s'.mode.InEscape?
  }

  /** What a character does to the mode and the weight depends only on the mode. */
  lemma FeedAlike(s: State, s': State, c: char)
    requires SameMode(s, s')
    ensures SameMode(Feed(s, c), Feed(s', c))
    ensures Weight(Feed(s', c)) - Weight(s') == Weight(Feed(s, c)) - Weight(s)
  {
    FeedWeight(s, c);
    FeedWeight(s', c);
  }

  /** A character is kept unless it is whitespace outside a string. */
  lemma FeedWeight(s: State, c: char)
    ensures Weight(Feed(s, c)) == Weight(s) + if (s.mode.Between? || s.mode.InWord?) && IsSpace(c) then 0 else 1
  {
    match s.mode
    case Between =>
      KeptOne(s.tokens, [c]);
    case InWord(w) =>
      KeptOne(s.tokens, w);
      KeptOne(s.tokens + [w], [c]);
    case InString(t) =>
      KeptOne(s.tokens, t + [c]);
    case InEscape(_) =>
  }

  lemma {:induction false} LexAlike(s: State, s': State, text: string)
    requires SameMode(s, s')
    ensures SameMode(Lex(s, text), Lex(s', text))
    ensures Weight(Lex(s', text)) - Weight(s') == Weight(Lex(s, text)) - Weight(s)
  {
    if text != "" {
      var n := |text| - 1;
      LexAlike(s, s', text[..n]);
      FeedAlike(Lex(s, text[..n]), Lex(s', text[..n]), text[n]);
    }
  }

  ghost predicate AllSpace(text: string) {
    forall i :: 0 <= i < |text| ==> IsSpace(text[i])
  }

  /** Whitespace means nothing between tokens and is content inside a string. */
  lemma {:induction false} LexSpaces(s: State, text: string)
    requires AllSpace(text) && (s.mode.Between? || s.mode.InString?)
    ensures s.mode.Between? ==> Lex(s, text) == s
    ensures s.mode.InString? ==> Lex(s, text).mode.InString? && Weight(Lex(s, text)) == Weight(s) + |text|
  {
    if text != "" {
      var n := |text| - 1;
      LexSpaces(s, text[..n]);
      assert IsSpace(text[n]);
    }
  }

  // ---- tokens, written out and read back ----

  /** What may follow the opening quote of a string: escaped pairs and other characters up to the closing quote. */
  predicate IsStringTail(s: string) {
    && s != ""
    && if s[0] == '"' then |s| == 1
       else if s[0] == '\\' then |s| >= 2 && IsStringTail(s[2..])
       else IsStringTail(s[1..])
  }

  predicate InWords(c: char) {
    !IsSpace(c) && !IsStructural(c) && c != '"'
  }

  /** A string, a structural character, or a run of other characters. */
  ghost predicate IsToken(t: string) {
    && t != ""
    && if t[0] == '"' then IsStringTail(t[1..])
       else if IsStructural(t[0]) then |t| == 1
       else forall i :: 0 <= i < |t| ==> InWords(t[i])
  }

  lemma LexFirst(s: State, c: char, rest: string)
    ensures Lex(s, [c] + rest) == Lex(Feed(s, c), rest)
  {
    LexConcat(s, [c], rest);
    assert [c][..0] == "" && Lex(s, [c]) == Feed(Lex(s, ""), c);
  }

  lemma Shift(before: string, c: char, rest: string)
    ensures before + [c] + rest == before + ([c] + rest)
  {
  }

  lemma {:induction false} LexStringTail(tokens: seq<string>, before: string, s: string)
    requires IsStringTail(s)
    ensures Lex(State(tokens, InString(before)), s) == State(tokens + [before + s], Between)
    decreases |s|
  {
    var rest := s[1..];
    assert s == [s[0]] + rest;
    LexFirst(State(tokens, InString(before)), s[0], rest);
    Shift(before, s[0], rest);
    if s[0] == '"' {
      assert rest == "" && s == [s[0]];
    } else if s[0] == '\\' {
      var c, more := rest[0], rest[1..];
      assert rest == [c] + more && more == s[2..];
      LexFirst(State(tokens, InEscape(before + [s[0]])), c, more);
      LexStringTail(tokens, before + [s[0]] + [c], more);
      Shift(before + [s[0]], c, more);
    } else {
      LexStringTail(tokens, before + [s[0]], rest);
    }
  }

  lemma {:induction false} LexWord(tokens: seq<string>, before: string, s: string)
    requires forall i :: 0 <= i < |s| ==> InWords(s[i])
    ensures Lex(State(tokens, InWord(before)), s) == State(tokens, InWord(before + s))
    decreases |s|
  {
    if s == "" {
      assert before + s == before;
    } else {
      assert s == [s[0]] + s[1..];
      LexFirst(State(tokens, InWord(before)), s[0], s[1..]);
      LexWord(tokens, before + [s[0]], s[1..]);
      assert before + [s[0]] + s[1..] == before + s;
    }
  }

  lemma SpaceEnds(tokens: seq<string>, word: string)
    ensures Lex(State(tokens, InWord(word)), " ") == State(tokens + [word], Between)
    ensures Lex(State(tokens, Between), " ") == State(tokens, Between)
  {
    assert " "[..0] == "";
  }

  lemma LexTokenAlone(tokens: seq<string>, t: string)
    requires IsToken(t)
    ensures Lex(State(tokens, Between), t) == State(tokens + [t], Between)
      || Lex(State(tokens, Between), t) == State(tokens, InWord(t))
  {
    var rest := t[1..];
    assert t == [t[0]] + rest;
    LexFirst(State(tokens, Between), t[0], rest);
    if t[0] == '"' {
      LexStringTail(tokens, [t[0]], rest);
    } else if IsStructural(t[0]) {
      assert rest == "" && t == [t[0]];
    } else {
      forall i | 0 <= i < |rest| ensures InWords(rest[i]) { assert rest[i] == t[i + 1]; }
      assert InWords(t[0]);
      LexWord(tokens, [t[0]], rest);
    }
  }

  /** A token followed by a space is read as that token. */
  lemma LexToken(tokens: seq<string>, t: string)
    requires IsToken(t)
    ensures Lex(State(tokens, Between), t + " ") == State(tokens + [t], Between)
  {
    LexConcat(State(tokens, Between), t, " ");
    LexTokenAlone(tokens, t);
    SpaceEnds(tokens + [t], "");
    SpaceEnds(tokens, t);
  }

  /** Tokens with a space after each. */
  function Written(tokens: seq<string>): string {
    if tokens == [] then "" else Written(tokens[..|tokens| - 1]) + (tokens[|tokens| - 1] + " ")
  }

  /** Reading what was written gives the tokens back. */
  lemma {:induction false} TokensRoundTrip(tokens: seq<string>)
    requires forall t :: t in tokens ==> IsToken(t)
    ensures Lex(START, Written(tokens)) == State(tokens, Between)
  {
    if tokens != [] {
      var n := |tokens| - 1;
      assert tokens == tokens[..n] + [tokens[n]] && tokens[n] in tokens;
      TokensRoundTrip(tokens[..n]);
      LexConcat(START, Written(tokens[..n]), tokens[n] + " ");
      LexToken(tokens[..n], tokens[n]);
    }
  }
}
