/**
 * The lexical half of the constraint parser: `tokenize`, which scans the
 * constraint text once into punctuation tokens and letter runs, and the
 * `Tokenizer` push-back buffer the parser reads tokens through.
 */
module Lexing {
  import opened Text
  import opened Visie

  datatype Option<T> = None | Some(value: T)

  /** A token's text (never empty) and the offset of its first character. */
  datatype Token = Token(text: Item, offset: nat)

  /**
   * What the token generator produces: its tokens in order and, if it stops
   * by raising, the offset of the illegal character it raises about.
   */
  datatype TokenStream = TokenStream(tokens: seq<Token>, failure: Option<nat>)

  /** The characters that are tokens by themselves. */
  predicate IsPunct(c: char)
  {
    match c
    case '(' | ')' | '[' | ']' | '{' | '}' | '<' | '>' | '?' | '.' => true
    case _ => false
  }

  /** The characters that only separate tokens. */
  predicate IsBlank(c: char)
  {
    c == ' ' || c == '\t' || c == '\n' || c == '\r'
  }

  /** `ord(c.lower())` lies between `ord('a')` and `ord('z')`. */
  predicate IsLetter(c: char)
  {
    'a' <= Lower(c) <= 'z'
  }

  predicate IsIllegal(c: char)
  {
    !IsPunct(c) && !IsBlank(c) && !IsLetter(c)
  }

  /** The end of the run of letters that starts at `i`. */
  function RunEnd(text: string, i: nat): (j: nat)
    requires i <= |text|
    ensures i <= j <= |text|
    ensures forall k :: i <= k < j ==> IsLetter(text[k])
    ensures j == |text| || !IsLetter(text[j])
    decreases |text| - i
  {
    if i < |text| && IsLetter(text[i]) then RunEnd(text, i + 1) else i
  }

  function Cons(t: Token, st: TokenStream): TokenStream
  {
    TokenStream([t] + st.tokens, st.failure)
  }

  /**
   * The token stream of `text[i..]`, read token by token: a punctuation
   * character, a maximal run of letters, or a blank to skip. An illegal
   * character stops the stream; a run of letters that it ends is not
   * emitted.
   */
  function LexFrom(text: string, i: nat): TokenStream
    requires i <= |text|
    decreases |text| - i
  {
    if i == |text| then TokenStream([], None)
    else if IsPunct(text[i]) then Cons(Token([text[i]], i), LexFrom(text, i + 1))
    else if IsBlank(text[i]) then LexFrom(text, i + 1)
    else if IsLetter(text[i]) then
      var j := RunEnd(text, i);
      if j < |text| && IsIllegal(text[j]) then TokenStream([], Some(j))
      else Cons(Token(text[i..j], i), LexFrom(text, j))
    else TokenStream([], Some(i))
  }

  function Lex(text: string): TokenStream
  {
    LexFrom(text, 0)
  }

  function Prepend(ts: seq<Token>, st: TokenStream): TokenStream
  {
    TokenStream(ts + st.tokens, st.failure)
  }

  lemma {:induction false} RunEndAt(text: string, s: nat, i: nat)
    requires s <= i <= |text|
    requires forall k :: s <= k < i ==> IsLetter(text[k])
    requires i == |text| || !IsLetter(text[i])
    ensures RunEnd(text, s) == i
    decreases i - s
  {
    if s < i {
      RunEndAt(text, s + 1, i);
    }
  }

  lemma PrependCons(ts: seq<Token>, t: Token, st: TokenStream)
    ensures Prepend(ts, Cons(t, st)) == Prepend(ts + [t], st)
  {
    assert ts + ([t] + st.tokens) == (ts + [t]) + st.tokens;
  }

  /** A punctuation character is a token of its own. */
  lemma LexAtPunct(text: string, i: nat)
    requires i < |text| && IsPunct(text[i])
    ensures LexFrom(text, i) == Cons(Token([text[i]], i), LexFrom(text, i + 1))
  {
  }

  lemma LexAtBlank(text: string, i: nat)
    requires i < |text| && IsBlank(text[i])
    ensures LexFrom(text, i) == LexFrom(text, i + 1)
  {
  }

  /** A run of letters `text[s..i]` ended by the end of the text, a blank or a punctuation character is a token. */
  lemma LexRunEnds(text: string, s: nat, i: nat)
    requires s < i <= |text|
    requires forall k :: s <= k < i ==> IsLetter(text[k])
    requires i == |text| || IsPunct(text[i]) || IsBlank(text[i])
    ensures LexFrom(text, s) == Cons(Token(text[s..i], s), LexFrom(text, i))
  {
    RunEndAt(text, s, i);
  }

  /** An illegal character ends the stream, dropping the run of letters before it. */
  lemma LexRunFails(text: string, s: nat, i: nat)
    requires s <= i < |text|
    requires forall k :: s <= k < i ==> IsLetter(text[k])
    requires IsIllegal(text[i])
    ensures LexFrom(text, s) == TokenStream([], Some(i))
  {
    if s < i {
      RunEndAt(text, s, i);
    }
  }

  /** `tokens` are what `tokenize(text)` yields before it reaches offset `s`. */
  predicate Tracks(text: string, tokens: seq<Token>, s: nat)
    requires s <= |text|
  {
    Lex(text) == Prepend(tokens, LexFrom(text, s))
  }

  lemma FlushStep(text: string, tokens: seq<Token>, s: nat, i: nat)
    requires s < i <= |text|
    requires forall k :: s <= k < i ==> IsLetter(text[k])
    requires i == |text| || IsPunct(text[i]) || IsBlank(text[i])
    requires Tracks(text, tokens, s)
    ensures Tracks(text, tokens + [Token(text[s..i], s)], i)
  {
    LexRunEnds(text, s, i);
    PrependCons(tokens, Token(text[s..i], s), LexFrom(text, i));
  }

  lemma PunctStep(text: string, tokens: seq<Token>, i: nat)
    requires i < |text| && IsPunct(text[i])
    requires Tracks(text, tokens, i)
    ensures Tracks(text, tokens + [Token([text[i]], i)], i + 1)
  {
    LexAtPunct(text, i);
    PrependCons(tokens, Token([text[i]], i), LexFrom(text, i + 1));
  }

  lemma BlankStep(text: string, tokens: seq<Token>, i: nat)
    requires i < |text| && IsBlank(text[i])
    requires Tracks(text, tokens, i)
    ensures Tracks(text, tokens, i + 1)
  {
    LexAtBlank(text, i);
  }

  lemma FailStep(text: string, tokens: seq<Token>, s: nat, i: nat)
    requires s <= i < |text|
    requires forall k :: s <= k < i ==> IsLetter(text[k])
    requires IsIllegal(text[i])
    requires Tracks(text, tokens, s)
    ensures Lex(text) == TokenStream(tokens, Some(i))
  {
    LexRunFails(text, s, i);
    assert tokens + [] == tokens;
  }

  lemma EndStep(text: string, tokens: seq<Token>)
    requires Tracks(text, tokens, |text|)
    ensures Lex(text) == TokenStream(tokens, None)
  {
    assert tokens + [] == tokens;
  }

  /** What `tokenize` knows after reading `text[..i]`: the tokens it has yielded and the run of letters it is in. */
  ghost predicate Scanned(text: string, i: nat, tokens: seq<Token>, word: string, start: nat)
  {
    start + |word| == i <= |text| &&
    word == text[start..i] &&
    (forall k :: start <= k < i ==> IsLetter(text[k])) &&
    Tracks(text, tokens, start)
  }

  /**
   * `tokenize` at a punctuation character or a blank: the run of letters
   * before it, if any, is a token, and so is the character if it is
   * punctuation.
   */
  method Separate(text: string, i: nat, tokens: seq<Token>, word: string, ghost start: nat)
    returns (tokens': seq<Token>, ghost start': nat)
    requires i < |text| && (IsPunct(text[i]) || IsBlank(text[i]))
    requires Scanned(text, i, tokens, word, start)
    ensures Scanned(text, i + 1, tokens', [], start')
  {
    tokens' := tokens;
    if word != [] {
      FlushStep(text, tokens, start, i);
      tokens' := tokens + [Token(word, i - |word|)];
    }
    if IsPunct(text[i]) {
      PunctStep(text, tokens', i);
      tokens' := tokens' + [Token([text[i]], i)];
    } else {
      BlankStep(text, tokens', i);
    }
    start' := i + 1;
    assert text[start'..i + 1] == [];
  }

  /** `tokenize(text)`, run to its end: the tokens it yields and the error it raises, if any. */
  method Tokenize(text: string) returns (st: TokenStream)
    ensures st == Lex(text)
  {
    var word: string := [];
    var tokens: seq<Token> := [];
    ghost var start: nat := 0;
    assert Tracks(text, tokens, 0) by {
      assert [] + Lex(text).tokens == Lex(text).tokens;
    }
    for i := 0 to |text|
      invariant Scanned(text, i, tokens, word, start)
    {
      var c := text[i];
      if IsPunct(c) || IsBlank(c) {
        tokens, start := Separate(text, i, tokens, word, start);
        word := [];
      } else if IsLetter(c) {
        assert text[start..i + 1] == text[start..i] + [c];
        word := word + [c];
      } else {
        FailStep(text, tokens, start, i);
        return TokenStream(tokens, Some(i));
      }
    }
    if word != [] {
      FlushStep(text, tokens, start, |text|);
      tokens := tokens + [Token(word, |text| - |word|)];
    }
    EndStep(text, tokens);
    st := TokenStream(tokens, None);
  }

  // ---------------------------------------------------------------------
  // What the token stream says about the text
  // ---------------------------------------------------------------------

  /** `t` lies inside `text` and is the slice it was cut from. */
  predicate CutFrom(text: string, t: Token)
  {
    t.offset + |t.text| <= |text| && text[t.offset..t.offset + |t.text|] == t.text
  }

  /** `t` is one punctuation character or a run of letters that cannot be extended either way. */
  predicate IsLexeme(text: string, t: Token)
    requires CutFrom(text, t)
  {
    || (|t.text| == 1 && IsPunct(t.text[0]))
    || (&& (forall k :: 0 <= k < |t.text| ==> IsLetter(t.text[k]))
        && (t.offset == 0 || !IsLetter(text[t.offset - 1]))
        && (t.offset + |t.text| == |text| || !IsLetter(text[t.offset + |t.text|])))
  }

  /** Every token is a lexeme cut from `text[from..]`, and each ends before the next begins. */
  predicate WellCut(text: string, from: nat, ts: seq<Token>)
  {
    && (forall a :: 0 <= a < |ts| ==> from <= ts[a].offset && CutFrom(text, ts[a]) && IsLexeme(text, ts[a]))
    && (forall a, b :: 0 <= a < b < |ts| ==> ts[a].offset + |ts[a].text| <= ts[b].offset)
  }

  lemma {:induction false} LexIsWellCut(text: string, i: nat)
    requires i <= |text|
    requires i == 0 || i == |text| || !IsLetter(text[i - 1]) || !IsLetter(text[i])
    ensures WellCut(text, i, LexFrom(text, i).tokens)
    decreases |text| - i
  {
    if i < |text| {
      var c := text[i];
      if IsPunct(c) {
        LexIsWellCut(text, i + 1);
        var t := Token([c], i);
        assert CutFrom(text, t) && IsLexeme(text, t);
        ConsWellCut(text, i, t, LexFrom(text, i + 1).tokens);
      } else if IsBlank(c) {
        LexIsWellCut(text, i + 1);
      } else if IsLetter(c) {
        var j := RunEnd(text, i);
        if !(j < |text| && IsIllegal(text[j])) {
          LexIsWellCut(text, j);
          var t := Token(text[i..j], i);
          assert CutFrom(text, t) && IsLexeme(text, t);
          ConsWellCut(text, i, t, LexFrom(text, j).tokens);
        }
      }
    }
  }

  lemma ConsWellCut(text: string, i: nat, t: Token, ts: seq<Token>)
    requires t.offset == i && CutFrom(text, t) && IsLexeme(text, t)
    requires WellCut(text, i + |t.text|, ts)
    ensures WellCut(text, i, [t] + ts)
  {
    var us := [t] + ts;
    forall a, b | 0 <= a < b < |us|
      ensures us[a].offset + |us[a].text| <= us[b].offset
    {
      assert us[b] == ts[b - 1];
      if a > 0 {
        assert us[a] == ts[a - 1];
      }
    }
    forall a | 0 <= a < |us|
      ensures i <= us[a].offset && CutFrom(text, us[a]) && IsLexeme(text, us[a])
    {
      if a > 0 {
        assert us[a] == ts[a - 1];
      }
    }
  }

  /**
   * The tokens of `text` are lexemes cut from it, left to right and not
   * overlapping, so their offsets strictly increase.
   */
  lemma TokensAreCutFromText(text: string)
    ensures WellCut(text, 0, Lex(text).tokens)
  {
    LexIsWellCut(text, 0);
  }

  /** The stream fails exactly at the first illegal character, if there is one. */
  lemma {:induction false} LexFailsAtFirstIllegal(text: string, i: nat)
    requires i <= |text|
    ensures LexFrom(text, i).failure.Some? ==>
      var j := LexFrom(text, i).failure.value;
      i <= j < |text| && IsIllegal(text[j]) && forall k :: i <= k < j ==> !IsIllegal(text[k])
    ensures LexFrom(text, i).failure.None? ==> forall k :: i <= k < |text| ==> !IsIllegal(text[k])
    decreases |text| - i
  {
    if i < |text| {
      var c := text[i];
      if IsPunct(c) || IsBlank(c) {
        LexFailsAtFirstIllegal(text, i + 1);
      } else if IsLetter(c) {
        var j := RunEnd(text, i);
        if !(j < |text| && IsIllegal(text[j])) {
          LexFailsAtFirstIllegal(text, j);
        }
      }
    }
  }

  /** The letters of a word followed by a non-letter are never a token: "illegal1" and "illegal!" fail. */
  lemma IllegalExamples()
    ensures Lex("illegal1") == TokenStream([], Some(7))
    ensures Lex("illegal!") == TokenStream([], Some(7))
  {
    RunEndAt("illegal1", 0, 7);
    RunEndAt("illegal!", 0, 7);
  }

  /** The text with its blanks removed. */
  function NonBlank(s: string): string
  {
    if s == [] then [] else (if IsBlank(s[0]) then [] else [s[0]]) + NonBlank(s[1..])
  }

  function Spelled(ts: seq<Token>): string
  {
    if ts == [] then [] else ts[0].text + Spelled(ts[1..])
  }

  lemma {:induction false} NonBlankConcat(a: string, b: string)
    ensures NonBlank(a + b) == NonBlank(a) + NonBlank(b)
  {
    if a == [] {
      assert a + b == b;
    } else {
      assert (a + b)[1..] == a[1..] + b;
      NonBlankConcat(a[1..], b);
    }
  }

  lemma {:induction false} NonBlankLetters(s: string)
    requires forall k :: 0 <= k < |s| ==> IsLetter(s[k])
    ensures NonBlank(s) == s
  {
    if s != [] {
      NonBlankLetters(s[1..]);
    }
  }

  /** When the text lexes cleanly, the tokens spell the text with its blanks removed. */
  lemma {:induction false} TokensSpellNonBlank(text: string, i: nat)
    requires i <= |text| && LexFrom(text, i).failure.None?
    ensures Spelled(LexFrom(text, i).tokens) == NonBlank(text[i..])
    decreases |text| - i
  {
    if i < |text| {
      var c := text[i];
      if IsPunct(c) || IsBlank(c) {
        assert text[i..] == [c] + text[i + 1..];
        NonBlankConcat([c], text[i + 1..]);
        TokensSpellNonBlank(text, i + 1);
        if IsPunct(c) {
          LexAtPunct(text, i);
          SpelledCons(Token([c], i), LexFrom(text, i + 1).tokens);
        } else {
          LexAtBlank(text, i);
        }
      } else if IsLetter(c) {
        var j := RunEnd(text, i);
        LexRunEnds(text, i, j);
        TokensSpellNonBlank(text, j);
        assert text[i..] == text[i..j] + text[j..];
        NonBlankConcat(text[i..j], text[j..]);
        NonBlankLetters(text[i..j]);
        SpelledCons(Token(text[i..j], i), LexFrom(text, j).tokens);
      }
    }
  }

  lemma SpelledCons(t: Token, ts: seq<Token>)
    ensures Spelled([t] + ts) == t.text + Spelled(ts)
  {
    assert ([t] + ts)[1..] == ts;
  }

  // ---------------------------------------------------------------------
  // The Tokenizer buffer
  // ---------------------------------------------------------------------

  /** What pulling the next token gives. */
  datatype Next = Got(token: Token) | Exhausted | Failed(offset: nat)

  datatype Pulled = Pulled(next: Next, rest: TokenStream)

  /**
   * Pulling one token: the first token if there is one; otherwise the
   * generator either stops (and stays stopped) or raises, after which it
   * is finished and yields nothing more.
   */
  function Advance(st: TokenStream): Pulled
  {
    if st.tokens != [] then Pulled(Got(st.tokens[0]), TokenStream(st.tokens[1..], st.failure))
    else if st.failure.None? then Pulled(Exhausted, st)
    else Pulled(Failed(st.failure.value), TokenStream([], None))
  }

  /** Looking at the next token: nothing is consumed, unless looking makes the generator raise. */
  function Lookahead(st: TokenStream): Pulled
  {
    if Advance(st).next.Failed? then Advance(st) else Pulled(Advance(st).next, st)
  }

  datatype LexOrParseError =
    | LexError(offset: nat)
    | NoTokensLeft(expected: string)
    | UnexpectedToken(expected: string, found: Token)
    | UnclosedGroup(start: Token)
    | DanglingOptional(at: Token)
    | OptionalNotCallable(at: Token)
    | NoTerms

  datatype Result<T> = Ok(value: T) | Err(error: LexOrParseError)

  datatype Expected = Expected(result: Result<Token>, rest: TokenStream)

  /** `expect(p)`: pull a token and insist that it starts with `p`. */
  function ExpectOf(st: TokenStream, p: string): (e: Expected)
    ensures e.rest == Advance(st).rest
    ensures e.result.Ok? <==> st.tokens != [] && p <= st.tokens[0].text
    ensures e.result.Ok? ==> e.result.value == st.tokens[0]
  {
    var a := Advance(st);
    match a.next
    case Got(t) => Expected(if p <= t.text then Ok(t) else Err(UnexpectedToken(p, t)), a.rest)
    case Exhausted => Expected(Err(NoTokensLeft(p)), a.rest)
    case Failed(j) => Expected(Err(LexError(j)), a.rest)
  }

  /**
   * `Tokenizer`: the tokens the generator has still to yield, the error it
   * will raise after them, and the push-back buffer in front of them.
   */
  class Tokenizer {
    var pending: seq<Token>
    var failure: Option<nat>
    var buffer: seq<Token>

    /** The tokens the next pops will return, and the error after them. */
    function Stream(): TokenStream
      reads this
    {
      TokenStream(buffer + pending, failure)
    }

    constructor(text: string)
      ensures Stream() == Lex(text) && buffer == []
    {
      var st := Tokenize(text);
      pending := st.tokens;
      failure := st.failure;
      buffer := [];
      new;
      assert [] + st.tokens == st.tokens;
    }

    /** `pop()`: the head of the buffer if there is one, otherwise the generator's next token. */
    method Pop() returns (r: Next)
      modifies this
      ensures Pulled(r, Stream()) == Advance(old(Stream()))
      ensures old(buffer) != [] ==> buffer == old(buffer)[1..] && pending == old(pending) && failure == old(failure)
      ensures old(buffer) == [] ==> buffer == []
    {
      if buffer == [] {
        if pending != [] {
          r := Got(pending[0]);
          pending := pending[1..];
        } else if failure.Some? {
          r := Failed(failure.value);
          failure := None;
        } else {
          r := Exhausted;
        }
        assert [] + pending == pending;
      } else {
        r := Got(buffer[0]);
        buffer := buffer[1..];
        assert old(buffer + pending)[1..] == buffer + pending;
      }
    }

    /** `peek()`: the next token without consuming it; `None` (Exhausted) when there is none. */
    method Peek() returns (r: Next)
      modifies this
      ensures Pulled(r, Stream()) == Lookahead(old(Stream()))
      ensures old(buffer) != [] ==> buffer == old(buffer) && pending == old(pending) && failure == old(failure)
      ensures r.Got? ==> buffer != [] && buffer[0] == r.token
    {
      if buffer == [] {
        if pending != [] {
          buffer := [pending[0]];
          pending := pending[1..];
          assert buffer + pending == old(pending);
        } else if failure.Some? {
          r := Failed(failure.value);
          failure := None;
          return;
        } else {
          return Exhausted;
        }
      }
      r := Got(buffer[0]);
    }

    /** `push(token)`: put a token back in front of the buffer. */
    method Push(t: Token)
      modifies this
      ensures Stream() == TokenStream([t] + old(Stream()).tokens, old(Stream()).failure)
      ensures buffer == [t] + old(buffer) && pending == old(pending) && failure == old(failure)
    {
      buffer := [t] + buffer;
    }

    /** `expect(p)`: pop the next token and fail unless it starts with `p`; the token is consumed either way. */
    method Expect(p: string) returns (r: Result<Token>)
      modifies this
      ensures Expected(r, Stream()) == ExpectOf(old(Stream()), p)
    {
      var next := Pop();
      match next
      case Got(t) =>
        if p <= t.text {
          r := Ok(t);
        } else {
          r := Err(UnexpectedToken(p, t));
        }
      case Exhausted =>
        r := Err(NoTokensLeft(p));
      case Failed(j) =>
        r := Err(LexError(j));
    }
  }

  /** Pushing a token back and popping returns that token and restores the stream. */
  lemma PushThenPop(st: TokenStream, t: Token)
    ensures Advance(TokenStream([t] + st.tokens, st.failure)) == Pulled(Got(t), st)
  {
    assert ([t] + st.tokens)[1..] == st.tokens;
  }

  /** Peeking leaves a token in place: a pop after a peek returns the peeked token. */
  lemma PeekThenPop(st: TokenStream)
    ensures Lookahead(st).next.Got? ==> Advance(Lookahead(st).rest) == Advance(st)
    ensures Lookahead(st).next.Exhausted? <==> st.tokens == [] && st.failure.None?
  {
  }

  /** Peeking twice gives the same answer; after a peek that raised, the stream is finished. */
  lemma PeekTwice(st: TokenStream)
    ensures !Lookahead(st).next.Failed? ==> Lookahead(Lookahead(st).rest) == Lookahead(st)
    ensures Lookahead(st).next.Failed? ==> Lookahead(Lookahead(st).rest).next == Exhausted
  {
  }

  /** What `n` pulls in a row hand out, and the stream they leave behind. */
  function Pulls(st: TokenStream, n: nat): (r: (seq<Next>, TokenStream))
    ensures |r.0| == n
    decreases n
  {
    if n == 0 then ([], st)
    else
      var p := Advance(st);
      var more := Pulls(p.rest, n - 1);
      ([p.next] + more.0, more.1)
  }

  /** The stream hands out its tokens one by one, in order, and keeps the rest and the pending error. */
  lemma {:induction false} PullsInOrder(st: TokenStream, n: nat)
    requires n <= |st.tokens|
    ensures forall i :: 0 <= i < n ==> Pulls(st, n).0[i] == Got(st.tokens[i])
    ensures Pulls(st, n).1 == TokenStream(st.tokens[n..], st.failure)
    decreases n
  {
    if n > 0 {
      var rest := TokenStream(st.tokens[1..], st.failure);
      PullsInOrder(rest, n - 1);
      assert rest.tokens[n - 1..] == st.tokens[n..];
      forall i | 1 <= i < n
        ensures Pulls(st, n).0[i] == Got(st.tokens[i])
      {
        assert Pulls(st, n).0[i] == Pulls(rest, n - 1).0[i - 1];
        assert rest.tokens[i - 1] == st.tokens[i];
      }
    }
  }

  /**
   * Once the tokens are used up, the next pull stops or raises the lexing
   * error, and every pull after that stops: the error is raised at most once.
   */
  lemma {:induction false} RaisesOnce(st: TokenStream, n: nat)
    requires st.tokens == [] && n >= 1
    ensures Pulls(st, n).0[0] == (if st.failure.Some? then Failed(st.failure.value) else Exhausted)
    ensures forall i :: 1 <= i < n ==> Pulls(st, n).0[i] == Exhausted
  {
    var p := Advance(st);
    assert p.rest.tokens == [] && p.rest.failure.None?;
    if n > 1 {
      StaysExhausted(p.rest, n - 1);
    }
  }

  lemma {:induction false} StaysExhausted(st: TokenStream, n: nat)
    requires st.tokens == [] && st.failure.None?
    ensures Pulls(st, n).1 == st
    ensures forall i :: 0 <= i < n ==> Pulls(st, n).0[i] == Exhausted
    decreases n
  {
    if n > 0 {
      StaysExhausted(st, n - 1);
    }
  }
}
