/** Padding each write of a watch response that ends an event. */
module WatchPadding {
  import opened JsonLexer

  const WATCH_LIST_PAD: nat := 128 * 1024

  /** The last character that is not whitespace is a closing brace. */
  ghost predicate IsBoundary(b: string) {
    exists i :: 0 <= i < |b| && b[i] == '}' && AllSpace(b[i + 1..])
  }

  /** The backward scan over trailing whitespace. */
  method EndsAtJSONBoundary(b: string) returns (r: bool)
    ensures r <==> IsBoundary(b)
  {
    var i := |b| - 1;
    while i >= 0
      invariant -1 <= i < |b|
      invariant AllSpace(b[i + 1..])
    {
      if !IsSpace(b[i]) {
        if b[i] == '}' { return true; }
        forall k | i < k < |b| ensures IsSpace(b[k]) {
          assert b[i + 1..][k - i - 1] == b[k];
        }
        forall k | 0 <= k < i && b[k] == '}' ensures !AllSpace(b[k + 1..]) {
          assert b[k + 1..][i - k - 1] == b[i];
        }
        return false;
      }
      assert b[i..] == [b[i]] + b[i + 1..];
      i := i - 1;
    }
    forall k | 0 <= k < |b| ensures b[k] != '}' {
      assert b[0..][k] == b[k];
    }
    return false;
  }

  function Spaces(n: nat): string {
    seq(n, _ => ' ')
  }

  /** How much padding a written chunk gets. */
  ghost function PadOf(b: string): nat {
    if IsBoundary(b) && |b| < WATCH_LIST_PAD then WATCH_LIST_PAD - |b| else 0
  }

  /** What a successful write of b emits. */
  ghost function Emitted(b: string): string {
    b + Spaces(PadOf(b))
  }

  /** What the underlying writer does with one call: how much it takes, and whether it succeeds. */
  datatype Sink = Sink(taken: nat, ok: bool)

  /** io.Writer's contract: never more than given, and all of it unless there is an error. */
  predicate Accepts(sink: Sink, b: string) {
    sink.taken <= |b| && (sink.ok ==> sink.taken == |b|)
  }

  class PadFlushWriter {
    var out: string
    var flushes: nat
    /** The chunks written so far and what their successful writes emitted. */
    ghost var chunks: seq<string>

    ghost predicate Valid()
      reads this
    {
      out == Output(chunks)
    }

    constructor ()
      ensures Valid() && chunks == [] && out == "" && flushes == 0
    {
      out, flushes, chunks := "", 0, [];
    }

    /** One write to the underlying response. */
    method Pass(b: string, sink: Sink) returns (n: nat, ok: bool)
      requires Accepts(sink, b)
      modifies this`out
      ensures n == sink.taken && ok == sink.ok && out == old(out) + b[..n]
    {
      out := out + b[..sink.taken];
      return sink.taken, sink.ok;
    }

    /** The padding after a chunk that went through: none unless it ends an event and falls short. */
    method Pad(b: string, padSink: Sink) returns (ok: bool)
      requires Accepts(padSink, Spaces(PadOf(b)))
      modifies this`out
      ensures ok == (PadOf(b) > 0 ==> padSink.ok)
      ensures out == old(out) + Spaces(if PadOf(b) > 0 then padSink.taken else 0)
      ensures ok ==> out == old(out) + Spaces(PadOf(b))
    {
      ok := true;
      var boundary := EndsAtJSONBoundary(b);
      if boundary {
        var pad := WATCH_LIST_PAD - |b|;
        if pad > 0 {
          var m;
          m, ok := Pass(Spaces(pad), padSink);
          assert Spaces(pad)[..m] == Spaces(m);
        }
      }
    }

    /**
     * Write b, pad it if it ends an event, flush. The count returned is that of b alone, also when
     * the padding fails; a boundary write of n bytes that succeeds emits max(n, 128 KiB) bytes.
     */
    method Write(b: string, sink: Sink, padSink: Sink) returns (n: nat, ok: bool)
      requires Valid() && Accepts(sink, b) && Accepts(padSink, Spaces(PadOf(b)))
      modifies this
      ensures n == sink.taken && ok == (sink.ok && (PadOf(b) > 0 ==> padSink.ok))
      ensures flushes == old(flushes) + 1
      ensures out == old(out) + b[..n] + (if sink.ok then Spaces(if PadOf(b) > 0 then padSink.taken else 0) else "")
      ensures ok ==> Valid() && chunks == old(chunks) + [b] && out == old(out) + Emitted(b) && n == |b|
    {
      n, ok := Pass(b, sink);
      if ok {
        assert b[..n] == b;
        ok := Pad(b, padSink);
        if ok {
          assert old(out) + b + Spaces(PadOf(b)) == old(out) + Emitted(b);
          OneMoreChunk(chunks, b);
          chunks := chunks + [b];
        }
      }
      flushes := flushes + 1;
    }
  }

  lemma OneMoreChunk(chunks: seq<string>, b: string)
    ensures Output(chunks + [b]) == Output(chunks) + Emitted(b)
  {
    assert (chunks + [b])[..|chunks|] == chunks;
  }

  /** The input, and the output of writing it chunk by chunk. */
  function Input(chunks: seq<string>): string {
    if chunks == [] then "" else Input(chunks[..|chunks| - 1]) + chunks[|chunks| - 1]
  }

  ghost function Output(chunks: seq<string>): string {
    if chunks == [] then "" else Output(chunks[..|chunks| - 1]) + Emitted(chunks[|chunks| - 1])
  }

  lemma EmittedLength(b: string)
    ensures IsBoundary(b) ==> |Emitted(b)| == (if |b| < 131_072 then 131_072 else |b|) && b <= Emitted(b)
    ensures !IsBoundary(b) ==> Emitted(b) == b
  {
    assert b + Spaces(0) == b;
  }

  lemma AfterBrace(s: State, text: string)
    ensures var mode := Lex(s, text + ['}']).mode; mode.Between? || mode.InString?
  {
    assert (text + ['}'])[..|text|] == text;
    assert Lex(s, text + ['}']) == Feed(Lex(s, text), '}');
  }

  /** After a boundary chunk the lexer is between tokens or inside a string, nowhere else. */
  lemma BoundaryModes(s: State, b: string)
    requires IsBoundary(b)
    ensures Lex(s, b).mode.Between? || Lex(s, b).mode.InString?
  {
    var i :| 0 <= i < |b| && b[i] == '}' && AllSpace(b[i + 1..]);
    var front, rest := b[..i + 1], b[i + 1..];
    assert b == front + rest && front == b[..i] + ['}'];
    LexConcat(s, front, rest);
    AfterBrace(s, b[..i]);
    LexSpaces(Lex(s, front), rest);
  }

  /** Every padded chunk leaves the lexer outside strings. */
  ghost predicate PadsOutsideStrings(chunks: seq<string>) {
    chunks == [] ||
    (&& PadsOutsideStrings(chunks[..|chunks| - 1])
     && (PadOf(chunks[|chunks| - 1]) > 0 ==> Lex(START, Input(chunks)).mode.Between?))
  }

  /** Output and input drive the lexer alike; the output keeps more exactly when a pad fell into a string. */
  lemma {:induction false} PaddingWeighs(chunks: seq<string>)
    ensures var plain, padded := Lex(START, Input(chunks)), Lex(START, Output(chunks));
      && SameMode(plain, padded) && Weight(padded) >= Weight(plain)
      && (if PadsOutsideStrings(chunks) then padded == plain else Weight(padded) > Weight(plain))
  {
    if chunks != [] {
      var front, b := chunks[..|chunks| - 1], chunks[|chunks| - 1];
      PaddingWeighs(front);
      var plain, padded := Lex(START, Input(front)), Lex(START, Output(front));
      LexConcat(START, Input(front), b);
      LexConcat(START, Output(front), Emitted(b));
      LexConcat(padded, b, Spaces(PadOf(b)));
      LexAlike(plain, padded, b);
      if PadOf(b) > 0 {
        BoundaryModes(padded, b);
        LexSpaces(Lex(padded, b), Spaces(PadOf(b)));
      } else {
        assert Spaces(0) == "";
      }
    }
  }

  /**
   * For any sequence of writes, the padded stream has the input's JSON tokens exactly when no pad fell
   * into a string.
   */
  lemma SameTokensIff(chunks: seq<string>)
    ensures Lex(START, Output(chunks)) == Lex(START, Input(chunks)) <==> PadsOutsideStrings(chunks)
  {
    PaddingWeighs(chunks);
  }

  /** Where the input ends between tokens, its tokens come out exactly when no pad fell into a string. */
  lemma FinishedTokensIff(chunks: seq<string>)
    requires Lex(START, Input(chunks)).mode.Between?
    ensures Lex(START, Output(chunks)).mode.Between?
    ensures Lex(START, Output(chunks)).tokens == Lex(START, Input(chunks)).tokens <==> PadsOutsideStrings(chunks)
  {
    PaddingWeighs(chunks);
  }

  lemma LexOne(text: string, c: char)
    ensures Lex(START, text + [c]) == Feed(Lex(START, text), c)
  {
    assert (text + [c])[..|text|] == text;
  }

  lemma InsideString(a: string, b: string, c: string, d: string)
    requires a == ['{'] && b == a + ['"'] && c == b + ['a'] && d == c + ['}']
    ensures Lex(START, d).mode.InString? && IsBoundary(d)
  {
    LexOne([], '{');
    LexOne(a, '"');
    LexOne(b, 'a');
    LexOne(c, '}');
    assert [] + ['{'] == a;
    assert d[3] == '}' && AllSpace(d[4..]);
  }

  lemma StringFinishes(front: string, a: string, b: string, c: string, d: string)
    requires Lex(START, front).mode.InString?
    requires a == front + ['"'] && b == a + [':'] && c == b + ['1'] && d == c + ['}']
    ensures Lex(START, d).mode.Between?
  {
    LexOne(front, '"');
    LexOne(a, ':');
    LexOne(b, '1');
    LexOne(c, '}');
  }

  /** One object, {"a}":1}, written in two parts of which the first breaks off after the brace in its key. */
  lemma PadFallsIntoString() returns (chunks: seq<string>)
    ensures chunks == [['{', '"', 'a', '}'], ['"', ':', '1', '}']]
    ensures Lex(START, Input(chunks)).mode.Between?
    ensures Lex(START, Output(chunks)).tokens != Lex(START, Input(chunks)).tokens
  {
    var first, second := ['{', '"', 'a', '}'], ['"', ':', '1', '}'];
    chunks := [first, second];
    InsideString(['{'], ['{', '"'], ['{', '"', 'a'], first);
    TwoParts(first, second);
    var a := first + ['"'];
    var b := a + [':'];
    StringFinishes(first, a, b, b + ['1'], b + ['1'] + ['}']);
    assert first + second == b + ['1'] + ['}'];
    FinishedTokensIff(chunks);
  }

  lemma OnePart(first: string)
    ensures Input([first]) == first
    ensures PadsOutsideStrings([first]) && PadOf(first) > 0 ==> Lex(START, first).mode.Between?
  {
    var none: seq<string> := [first][..0];
    assert none == [] && "" + first == first;
    assert Input([first]) == Input(none) + first;
  }

  lemma TwoParts(first: string, second: string)
    ensures Input([first, second]) == first + second
    ensures PadsOutsideStrings([first, second]) && PadOf(first) > 0 ==> Lex(START, first).mode.Between?
  {
    var chunks := [first, second];
    OnePart(first);
    assert chunks[..|chunks| - 1] == [first] && chunks[|chunks| - 1] == second;
    assert PadsOutsideStrings(chunks) ==> PadsOutsideStrings(chunks[..|chunks| - 1]);
  }
}
