/**
 * The parser on concrete texts: a word, terms at the top level, each kind
 * of group, an optional term, the wildcard, a stray closing delimiter, a
 * missing closing delimiter, a dangling `?`, blank text and an illegal
 * character.
 */
module ParserExamples {
  import opened Text
  import opened Visie
  import opened Lexing
  import opened Parsing
  import opened ParseLaws

  lemma LexFoo()
    ensures Lex("foo") == TokenStream([Token("foo", 0)], None)
  {
    var text := "foo";
    FlushStep(text, [], 0, 3);
    assert text[0..3] == "foo";
    EndStep(text, [Token("foo", 0)]);
  }

  lemma ParseWord()
    ensures ParseText(AsIntended, "foo") == Ok(Word("foo"))
    ensures ParseText(AsWritten, "foo") == Ok(Word("foo"))
  {
    LexFoo();
    ParseRoundTrip(Word("foo"), [Token("foo", 0)]);
  }

  lemma TwoWordsText(text: string)
    requires text == "foo bar"
    ensures |text| == 7 && IsBlank(text[3])
    ensures (forall i :: 0 <= i < 3 ==> IsLetter(text[i])) && text[0..3] == "foo"
    ensures (forall i :: 4 <= i < 7 ==> IsLetter(text[i])) && text[4..7] == "bar"
  {
    assert text[0..3] == "foo" && text[4..7] == "bar";
  }

  lemma LexFooBar()
    ensures Lex("foo bar") == TokenStream([Token("foo", 0), Token("bar", 4)], None)
  {
    var text := "foo bar";
    TwoWordsText(text);
    FlushStep(text, [], 0, 3);
    BlankStep(text, [Token("foo", 0)], 3);
    FlushStep(text, [Token("foo", 0)], 4, 7);
    EndStep(text, [Token("foo", 0), Token("bar", 4)]);
  }

  /** Two terms at the top level are any of them. */
  lemma ParseTwoWords()
    ensures ParseText(AsIntended, "foo bar") == Ok(AnyOf([Word("foo"), Word("bar")]))
  {
    LexFooBar();
    var cs := [Word("foo"), Word("bar")];
    assert RenderAll(cs) == ["foo", "bar"] by {
      assert cs[1..] == [Word("bar")];
    }
    TermsRoundTrip(cs, [Token("foo", 0), Token("bar", 4)]);
  }

  /** The characters of `open foo bar close`. */
  lemma GroupText(k: GroupKind, text: string)
    requires text == Begin(k) + "foo bar" + End(k)
    ensures |text| == 9 && IsPunct(text[0]) && IsBlank(text[4]) && IsPunct(text[8])
    ensures [text[0]] == Begin(k) && [text[8]] == End(k)
    ensures (forall i :: 1 <= i < 4 ==> IsLetter(text[i])) && text[1..4] == "foo"
    ensures (forall i :: 5 <= i < 8 ==> IsLetter(text[i])) && text[5..8] == "bar"
  {
    assert text[1..4] == "foo" && text[5..8] == "bar";
  }

  /** `open foo bar close`, for the four pairs of delimiters. */
  lemma LexGroup(k: GroupKind)
    ensures Lex(Begin(k) + "foo bar" + End(k)) ==
      TokenStream([Token(Begin(k), 0), Token("foo", 1), Token("bar", 5), Token(End(k), 8)], None)
  {
    var text := Begin(k) + "foo bar" + End(k);
    GroupText(k, text);
    PunctStep(text, [], 0);
    var ts := [Token(Begin(k), 0)];
    FlushStep(text, ts, 1, 4);
    ts := ts + [Token("foo", 1)];
    BlankStep(text, ts, 4);
    FlushStep(text, ts, 5, 8);
    ts := ts + [Token("bar", 5)];
    PunctStep(text, ts, 8);
    EndStep(text, ts + [Token(End(k), 8)]);
  }

  /** A group of two words is the constraint of that group's kind. */
  lemma ParseGroupOfWords(k: GroupKind)
    ensures ParseText(AsIntended, Begin(k) + "foo bar" + End(k)) == Ok(Build(k, [Word("foo"), Word("bar")]))
  {
    LexGroup(k);
    var cs := [Word("foo"), Word("bar")];
    var c := Build(k, cs);
    var ts := [Token(Begin(k), 0), Token("foo", 1), Token("bar", 5), Token(End(k), 8)];
    assert RenderAll(cs) == ["foo", "bar"] by {
      assert cs[1..] == [Word("bar")];
    }
    assert KindOf(c) == Some(k);
    RenderGroup(c);
    ParseRoundTrip(c, ts);
  }

  /** `{foo bar}` is any of its words. */
  lemma ParseBraces(text: string)
    requires text == "{foo bar}"
    ensures ParseText(AsIntended, text) == Ok(AnyOf([Word("foo"), Word("bar")]))
  {
    assert Begin(AnyOfGroup) + "foo bar" + End(AnyOfGroup) == text;
    ParseGroupOfWords(AnyOfGroup);
  }

  lemma LexOptional(text: string)
    requires text == "foo?"
    ensures Lex(text) == TokenStream([Token("foo", 0), Token("?", 3)], None)
  {
    assert IsPunct(text[3]) && text[0..3] == "foo" && [text[3]] == "?";
    FlushStep(text, [], 0, 3);
    PunctStep(text, [Token("foo", 0)], 3);
    EndStep(text, [Token("foo", 0), Token("?", 3)]);
  }

  /**
   * `foo?` is an optional word as intended; as written the parser fails
   * on the `?` at offset 3.
   */
  lemma ParseOptional(text: string)
    requires text == "foo?"
    ensures ParseText(AsIntended, text) == Ok(Optional(Word("foo")))
    ensures ParseText(AsWritten, text) == Err(OptionalNotCallable(Token("?", 3)))
  {
    LexOptional(text);
    var ts := [Token("foo", 0), Token("?", 3)];
    assert Render(Optional(Word("foo"))) == ["foo", "?"];
    AsWrittenOptionalFails(Word("foo"), ts);
  }

  /** `.` is the wildcard. */
  lemma ParseWildcard(text: string)
    requires text == "."
    ensures ParseText(AsIntended, text) == Ok(Wildcard)
  {
    assert IsPunct(text[0]) && [text[0]] == ".";
    PunctStep(text, [], 0);
    EndStep(text, [Token(".", 0)]);
    ParseRoundTrip(Wildcard, [Token(".", 0)]);
  }

  /** `<foo`: the group never closes, and the error names the `<` at offset 0. */
  lemma ParseUnclosed(w: Wrap, text: string)
    requires text == "<foo"
    ensures ParseText(w, text) == Err(UnclosedGroup(Token("<", 0)))
  {
    assert IsPunct(text[0]) && [text[0]] == "<" && text[1..4] == "foo";
    PunctStep(text, [], 0);
    FlushStep(text, [Token("<", 0)], 1, 4);
    var ts := [Token("<", 0), Token("foo", 1)];
    EndStep(text, ts);
    var c := Ordered([Word("foo")]);
    assert Render(c) == ["<", "foo", ">"];
    UnclosedGroupReported(w, c, ts);
  }

  /** `?` with nothing before it. */
  lemma ParseDangling(w: Wrap, text: string)
    requires text == "?"
    ensures ParseText(w, text) == Err(DanglingOptional(Token("?", 0)))
  {
    assert IsPunct(text[0]) && [text[0]] == "?";
    PunctStep(text, [], 0);
    EndStep(text, [Token("?", 0)]);
    DanglingOptionalRejected(w, Lex(text));
  }

  /** Blank text has no terms. */
  lemma ParseBlank(w: Wrap, text: string)
    requires text == " \t"
    ensures ParseText(w, text) == Err(NoTerms)
  {
    BlankStep(text, [], 0);
    BlankStep(text, [], 1);
    EndStep(text, []);
  }

  /** An illegal character is reported at its offset. */
  lemma ParseIllegal(w: Wrap, text: string)
    requires text == "illegal1"
    ensures ParseText(w, text) == Err(LexError(7))
  {
    IllegalExamples();
  }

  /** The body of `<a ]>`: the `]` is not `>`, so it is read as a word. */
  lemma StrayCloserBody(w: Wrap, st: TokenStream, start: Token)
    requires st == TokenStream([Token("a", 1), Token("]", 3), Token(">", 4)], None)
    ensures GroupBody(w, st, OrderedGroup, start, []) ==
      Parsed(Ok(Ordered([Word("a"), Word("]")])), TokenStream([], None))
  {
    var until := Some(End(OrderedGroup));
    var st2 := TokenStream(st.tokens[1..], None);
    var st3 := TokenStream(st2.tokens[1..], None);
    assert st3.tokens == [Token(">", 4)];
    ArgsStepPlain(w, st, st2, until, [], Word("a"));
    ArgsStepPlain(w, st2, st3, until, [Word("a")], Word("]"));
    ArgsStepEnd(w, st3, until, [Word("a"), Word("]")]);
    assert [] + [Word("a")] + [Word("]")] == [Word("a"), Word("]")];
    GroupStepArgs(w, OrderedGroup, st, start, [Word("a"), Word("]")], st3);
    GroupStepClose(w, OrderedGroup, st3, start, [Word("a"), Word("]")]);
  }

  /**
   * `<a ]>`: an argument list stops only at its own closing delimiter, so
   * a stray `]` inside `<...>` is read as a dictionary word.
   */
  lemma ParseStrayCloser(w: Wrap, text: string)
    requires text == "<a ]>"
    ensures ParseText(w, text) == Ok(Ordered([Word("a"), Word("]")]))
  {
    LexStrayCloser(text);
    var st := TokenStream([Token("<", 0), Token("a", 1), Token("]", 3), Token(">", 4)], None);
    var mid := TokenStream(st.tokens[1..], None);
    StrayCloserBody(w, mid, st.tokens[0]);
    ArgsStepGroup(w, st, OrderedGroup, mid, None, [], Ordered([Word("a"), Word("]")]), TokenStream([], None));
  }

  lemma LexStrayCloser(text: string)
    requires text == "<a ]>"
    ensures Lex(text) == TokenStream([Token("<", 0), Token("a", 1), Token("]", 3), Token(">", 4)], None)
  {
    assert IsPunct(text[0]) && IsLetter(text[1]) && IsBlank(text[2]) && IsPunct(text[3]) && IsPunct(text[4]);
    assert [text[0]] == "<" && text[1..2] == "a" && [text[3]] == "]" && [text[4]] == ">";
    PunctStep(text, [], 0);
    FlushStep(text, [Token("<", 0)], 1, 2);
    BlankStep(text, [Token("<", 0), Token("a", 1)], 2);
    PunctStep(text, [Token("<", 0), Token("a", 1)], 3);
    PunctStep(text, [Token("<", 0), Token("a", 1), Token("]", 3)], 4);
    EndStep(text, [Token("<", 0), Token("a", 1), Token("]", 3), Token(">", 4)]);
  }
}
