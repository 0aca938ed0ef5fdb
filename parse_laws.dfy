/**
 * What the parser promises: it reads back any constraint written out in
 * its own syntax, it succeeds only on text that lexes cleanly, and it
 * reports a missing closing delimiter against the opening one.
 */
module ParseLaws {
  import opened Text
  import opened Visie
  import opened Lexing
  import opened Parsing

  /** The texts of a run of tokens. */
  function Texts(ts: seq<Token>): (r: seq<string>)
    ensures |r| == |ts| && forall i :: 0 <= i < |ts| ==> r[i] == ts[i].text
  {
    seq(|ts|, i requires 0 <= i < |ts| => ts[i].text)
  }

  lemma TextsSplit(ts: seq<Token>, n: nat)
    requires n <= |ts|
    ensures Texts(ts[..n]) == Texts(ts)[..n] && Texts(ts[n..]) == Texts(ts)[n..]
  {
  }

  predicate IsLetters(s: string)
  {
    forall i :: 0 <= i < |s| ==> IsLetter(s[i])
  }

  /** A constraint the syntax can spell: every word is made of letters. */
  predicate Printable(c: Constraint)
    decreases c
  {
    match c
    case Word(w) => IsLetters(w)
    case Wildcard => true
    case Optional(x) => Printable(x)
    case AnyOf(cs) => AllPrintable(cs)
    case Ordered(cs) => AllPrintable(cs)
    case AllOf(cs) => AllPrintable(cs)
    case ExactlyOne(cs) => AllPrintable(cs)
  }

  predicate AllPrintable(cs: seq<Constraint>)
    decreases cs
  {
    forall i :: 0 <= i < |cs| ==> Printable(cs[i])
  }

  /** A constraint with no `?` anywhere in it. */
  predicate NoOptional(c: Constraint)
    decreases c
  {
    match c
    case Word(_) => true
    case Wildcard => true
    case Optional(_) => false
    case AnyOf(cs) => AllNoOptional(cs)
    case Ordered(cs) => AllNoOptional(cs)
    case AllOf(cs) => AllNoOptional(cs)
    case ExactlyOne(cs) => AllNoOptional(cs)
  }

  predicate AllNoOptional(cs: seq<Constraint>)
    decreases cs
  {
    forall i :: 0 <= i < |cs| ==> NoOptional(cs[i])
  }

  /** The tokens that spell a constraint in the parser's syntax. */
  function Render(c: Constraint): seq<string>
    decreases c
  {
    match c
    case Word(w) => [w]
    case Wildcard => ["."]
    case Optional(x) => Render(x) + ["?"]
    case Ordered(cs) => ["<"] + RenderAll(cs) + [">"]
    case AllOf(cs) => ["["] + RenderAll(cs) + ["]"]
    case ExactlyOne(cs) => ["("] + RenderAll(cs) + [")"]
    case AnyOf(cs) => ["{"] + RenderAll(cs) + ["}"]
  }

  function RenderAll(cs: seq<Constraint>): seq<string>
    decreases cs
  {
    if cs == [] then [] else Render(cs[0]) + RenderAll(cs[1..])
  }

  /** The group kind of a group constraint. */
  function KindOf(c: Constraint): Option<GroupKind>
  {
    match c
    case Ordered(_) => Some(OrderedGroup)
    case AllOf(_) => Some(AllOfGroup)
    case ExactlyOne(_) => Some(ExactlyOneGroup)
    case AnyOf(_) => Some(AnyOfGroup)
    case _ => None
  }

  /** A group is spelled by its delimiters around its children. */
  lemma RenderGroup(c: Constraint)
    requires KindOf(c).Some?
    ensures c == Build(KindOf(c).value, c.children)
    ensures Render(c) == [Begin(KindOf(c).value)] + RenderAll(c.children) + [End(KindOf(c).value)]
  {
  }

  /** No spelling starts with a closing delimiter, a `?` or the end of the tokens. */
  lemma {:induction false} RenderStart(c: Constraint)
    requires Printable(c)
    ensures Render(c) != []
    ensures Render(c)[0] != "?" && forall k :: !(End(k) <= Render(c)[0])
    decreases c
  {
    match c
    case Word(w) =>
      assert IsLetter(w[0]);
    case Optional(x) =>
      RenderStart(x);
    case _ =>
  }

  /** The argument list a closing delimiter ends, or the top level. */
  function UntilOf(closer: Option<GroupKind>): Option<string>
  {
    if closer.Some? then Some(End(closer.value)) else None
  }

  /** A token that can start a term never ends an argument list. */
  lemma NotUntil(text: string, closer: Option<GroupKind>)
    requires text == "?" || text == "." || GroupKindOf(text).Some? || (text != [] && IsLetter(text[0]))
    ensures !Ends(text, UntilOf(closer))
  {
    if closer.Some? && text != [] && IsLetter(text[0]) {
      assert End(closer.value)[0] != text[0];
    }
  }

  /** A word of letters is neither punctuation nor an opening delimiter. */
  lemma WordIsPlain(word: string)
    requires word != [] && IsLetter(word[0])
    ensures word != "?" && word != "." && GroupKindOf(word).None?
  {
  }

  /** `st` holds the tokens `ts` and then the stream `rest`. */
  predicate Before(ts: seq<Token>, st: TokenStream, rest: TokenStream)
  {
    st.tokens == ts + rest.tokens && st.failure == rest.failure
  }

  /** Reading a word or a `.` appends one term. */
  lemma {:induction false} ArgsStepPlain(w: Wrap, st: TokenStream, rest: TokenStream, until: Option<string>, acc: seq<Constraint>, c: Constraint)
    requires st.tokens != [] && rest == TokenStream(st.tokens[1..], st.failure)
    requires !Ends(st.tokens[0].text, until) && GroupKindOf(st.tokens[0].text).None? && st.tokens[0].text != "?"
    requires c == (if st.tokens[0].text == "." then Wildcard else Word(st.tokens[0].text))
    ensures ArgsFrom(w, st, until, acc) == ArgsFrom(w, rest, until, acc + [c])
  {
  }

  /** Reading a `?` after some terms wraps the last one. */
  lemma {:induction false} ArgsStepOptional(w: Wrap, st: TokenStream, rest: TokenStream, until: Option<string>, acc: seq<Constraint>, x: Constraint)
    requires st.tokens != [] && rest == TokenStream(st.tokens[1..], st.failure)
    requires !Ends(st.tokens[0].text, until) && st.tokens[0].text == "?"
    ensures w == AsIntended ==> ArgsFrom(w, st, until, acc + [x]) == ArgsFrom(w, rest, until, acc + [Optional(x)])
    ensures w == AsWritten ==> ArgsFrom(w, st, until, acc + [x]) == Parsed(Err(OptionalNotCallable(st.tokens[0])), rest)
  {
    var cs := acc + [x];
    assert cs[..|cs| - 1] == acc && cs[|cs| - 1] == x;
  }

  /** Reading a group that parses appends it as one term. */
  lemma {:induction false} ArgsStepGroup(w: Wrap, st: TokenStream, k: GroupKind, mid: TokenStream, until: Option<string>,
                                         acc: seq<Constraint>, c: Constraint, rest: TokenStream)
    requires st.tokens != [] && mid == TokenStream(st.tokens[1..], st.failure)
    requires !Ends(st.tokens[0].text, until) && st.tokens[0].text == Begin(k)
    requires GroupBody(w, mid, k, st.tokens[0], []) == Parsed(Ok(c), rest)
    ensures ArgsFrom(w, st, until, acc) == ArgsFrom(w, rest, until, acc + [c])
  {
    assert GroupFrom(w, st, k) == Parsed(Ok(c), rest);
  }

  /** An argument list stops at its closing token. */
  lemma {:induction false} ArgsStepEnd(w: Wrap, st: TokenStream, until: Option<string>, acc: seq<Constraint>)
    requires st.tokens != [] && Ends(st.tokens[0].text, until)
    ensures ArgsFrom(w, st, until, acc) == Parsed(Ok(acc), st)
  {
  }

  /** The body of a group at its closing delimiter. */
  lemma {:induction false} GroupStepClose(w: Wrap, k: GroupKind, st: TokenStream, start: Token, cs: seq<Constraint>)
    requires st.tokens != [] && st.tokens[0].text == End(k)
    ensures GroupBody(w, st, k, start, cs) == Parsed(Ok(Build(k, cs)), TokenStream(st.tokens[1..], st.failure))
  {
  }

  /** The body of a group at the start of its children. */
  lemma {:induction false} GroupStepArgs(w: Wrap, k: GroupKind, st: TokenStream, start: Token, cs: seq<Constraint>, rest: TokenStream)
    requires st.tokens != [] && !(End(k) <= st.tokens[0].text)
    requires ArgsFrom(w, st, Some(End(k)), []) == Parsed(Ok(cs), rest)
    ensures GroupBody(w, st, k, start, []) == GroupBody(w, rest, k, start, cs)
  {
    assert [] + cs == cs;
  }

  /**
   * Reading the spelling of one term appends that term to the terms read
   * so far and leaves the stream just after it.
   */
  lemma {:induction false} TermOver(w: Wrap, c: Constraint, ts: seq<Token>, st: TokenStream, rest: TokenStream,
                                    closer: Option<GroupKind>, acc: seq<Constraint>)
    requires Printable(c) && (w == AsIntended || NoOptional(c))
    requires Texts(ts) == Render(c) && Before(ts, st, rest)
    ensures ArgsFrom(w, st, UntilOf(closer), acc) == ArgsFrom(w, rest, UntilOf(closer), acc + [c])
    decreases Size(c), 0
  {
    var until := UntilOf(closer);
    if c.Word? || c.Wildcard? {
      assert ts == [ts[0]];
      assert st.tokens[0] == ts[0] && st.tokens[1..] == rest.tokens;
      if c.Word? {
        assert IsLetter(c.word[0]);
        WordIsPlain(c.word);
      }
      NotUntil(ts[0].text, closer);
      ArgsStepPlain(w, st, rest, until, acc, c);
    } else if c.Optional? {
      OptionalTermOver(w, c, ts, st, rest, closer, acc);
    } else {
      GroupTermOver(w, c, ts, st, rest, closer, acc);
    }
  }

  lemma {:induction false} OptionalTermOver(w: Wrap, c: Constraint, ts: seq<Token>, st: TokenStream, rest: TokenStream,
                                            closer: Option<GroupKind>, acc: seq<Constraint>)
    requires c.Optional? && Printable(c) && (w == AsIntended || NoOptional(c))
    requires Texts(ts) == Render(c) && Before(ts, st, rest)
    ensures ArgsFrom(w, st, UntilOf(closer), acc) == ArgsFrom(w, rest, UntilOf(closer), acc + [c])
    decreases Size(c), -1
  {
    var n := |ts| - 1;
    TextsSplit(ts, n);
    var mid := TokenStream([ts[n]] + rest.tokens, rest.failure);
    assert ts[..n] + mid.tokens == ts + rest.tokens;
    TermOver(w, c.child, ts[..n], st, mid, closer, acc);
    NotUntil(ts[n].text, closer);
    assert mid.tokens[1..] == rest.tokens;
    ArgsStepOptional(w, mid, rest, UntilOf(closer), acc, c.child);
  }

  /** The spelling of a group: its opening delimiter, its children's spelling, its closing delimiter. */
  lemma SplitGroup(w: Wrap, c: Constraint, ts: seq<Token>)
    requires KindOf(c).Some? && Printable(c) && (w == AsIntended || NoOptional(c))
    requires Texts(ts) == Render(c)
    ensures |ts| >= 2 && ts[0].text == Begin(KindOf(c).value) && ts[|ts| - 1].text == End(KindOf(c).value)
    ensures Texts(ts[1..|ts| - 1]) == RenderAll(c.children)
    ensures AllPrintable(c.children) && (w == AsIntended || AllNoOptional(c.children))
    ensures SizeOf(c.children) < Size(c) && c == Build(KindOf(c).value, c.children)
  {
    RenderGroup(c);
    var n := |ts| - 1;
    TextsSplit(ts, 1);
    TextsSplit(ts[1..], n - 1);
    assert ts[1..][..n - 1] == ts[1..n];
  }

  /** The stream after a group's opening delimiter. */
  lemma GroupStream(ts: seq<Token>, st: TokenStream, rest: TokenStream) returns (mid: TokenStream)
    requires |ts| >= 2 && Before(ts, st, rest)
    ensures st.tokens != [] && st.tokens[0] == ts[0] && mid == TokenStream(st.tokens[1..], st.failure)
    ensures mid.tokens == ts[1..|ts| - 1] + ([ts[|ts| - 1]] + rest.tokens) && mid.failure == rest.failure
  {
    mid := TokenStream(st.tokens[1..], st.failure);
    assert ts == [ts[0]] + ts[1..|ts| - 1] + [ts[|ts| - 1]];
  }

  lemma {:induction false} GroupTermOver(w: Wrap, c: Constraint, ts: seq<Token>, st: TokenStream, rest: TokenStream,
                                         closer: Option<GroupKind>, acc: seq<Constraint>)
    requires KindOf(c).Some?
    requires Printable(c) && (w == AsIntended || NoOptional(c))
    requires Texts(ts) == Render(c) && Before(ts, st, rest)
    ensures ArgsFrom(w, st, UntilOf(closer), acc) == ArgsFrom(w, rest, UntilOf(closer), acc + [c])
    decreases Size(c), -1
  {
    var k := KindOf(c).value;
    SplitGroup(w, c, ts);
    var mid := GroupStream(ts, st, rest);
    GroupOver(w, k, c.children, ts[1..|ts| - 1], ts[|ts| - 1], mid, rest, ts[0]);
    NotUntil(ts[0].text, closer);
    ArgsStepGroup(w, st, k, mid, UntilOf(closer), acc, c, rest);
  }

  /** Cutting `st` after the first `n` of the tokens it holds before `rest`. */
  lemma SplitStream(ts: seq<Token>, n: nat, st: TokenStream, rest: TokenStream) returns (mid: TokenStream)
    requires n <= |ts| && Before(ts, st, rest)
    ensures Before(ts[..n], st, mid) && Before(ts[n..], mid, rest)
  {
    mid := TokenStream(ts[n..] + rest.tokens, rest.failure);
    assert ts[..n] + mid.tokens == ts + rest.tokens;
  }

  /** The spelling of several terms is the spelling of the first, then that of the others. */
  lemma SplitTerms(w: Wrap, cs: seq<Constraint>, ts: seq<Token>, acc: seq<Constraint>)
    requires cs != [] && AllPrintable(cs) && (w == AsIntended || AllNoOptional(cs))
    requires Texts(ts) == RenderAll(cs)
    ensures |Render(cs[0])| <= |ts|
    ensures Printable(cs[0]) && (w == AsIntended || NoOptional(cs[0]))
    ensures AllPrintable(cs[1..]) && (w == AsIntended || AllNoOptional(cs[1..]))
    ensures Texts(ts[..|Render(cs[0])|]) == Render(cs[0]) && Texts(ts[|Render(cs[0])|..]) == RenderAll(cs[1..])
    ensures Size(cs[0]) <= SizeOf(cs) && SizeOf(cs[1..]) < SizeOf(cs)
    ensures acc + [cs[0]] + cs[1..] == acc + cs
  {
    TextsSplit(ts, |Render(cs[0])|);
    assert acc + [cs[0]] + cs[1..] == acc + cs;
    assert forall i :: 0 <= i < |cs[1..]| ==> cs[1..][i] == cs[i + 1];
  }

  /**
   * Reading the spelling of several terms appends them all, in order.
   */
  lemma {:induction false} ArgsOver(w: Wrap, cs: seq<Constraint>, ts: seq<Token>, st: TokenStream, rest: TokenStream,
                                    closer: Option<GroupKind>, acc: seq<Constraint>)
    requires AllPrintable(cs) && (w == AsIntended || AllNoOptional(cs))
    requires Texts(ts) == RenderAll(cs) && Before(ts, st, rest)
    ensures ArgsFrom(w, st, UntilOf(closer), acc) == ArgsFrom(w, rest, UntilOf(closer), acc + cs)
    decreases SizeOf(cs), 1
  {
    if cs == [] {
      assert st == rest && acc + cs == acc;
    } else {
      SplitTerms(w, cs, ts, acc);
      var n := |Render(cs[0])|;
      var mid := SplitStream(ts, n, st, rest);
      TermOver(w, cs[0], ts[..n], st, mid, closer, acc);
      ArgsOver(w, cs[1..], ts[n..], mid, rest, closer, acc + [cs[0]]);
    }
  }

  /**
   * The body of a group spelled by its children and its closing delimiter
   * builds the group from exactly those children.
   */
  lemma {:induction false} GroupOver(w: Wrap, k: GroupKind, cs: seq<Constraint>, inner: seq<Token>, e: Token,
                                     st: TokenStream, rest: TokenStream, start: Token)
    requires AllPrintable(cs) && (w == AsIntended || AllNoOptional(cs))
    requires Texts(inner) == RenderAll(cs) && e.text == End(k)
    requires st.tokens == inner + ([e] + rest.tokens) && st.failure == rest.failure
    ensures GroupBody(w, st, k, start, []) == Parsed(Ok(Build(k, cs)), rest)
    decreases SizeOf(cs), 2
  {
    var after := TokenStream([e] + rest.tokens, rest.failure);
    assert after.tokens[1..] == rest.tokens;
    if cs == [] {
      assert st == after;
      GroupStepClose(w, k, after, start, []);
    } else {
      RenderStart(cs[0]);
      assert Before(inner, st, after);
      assert st.tokens[0] == inner[0];
      ArgsOver(w, cs, inner, st, after, Some(k), []);
      assert UntilOf(Some(k)) == Some(End(k)) && [] + cs == cs;
      ArgsStepEnd(w, after, Some(End(k)), cs);
      GroupStepArgs(w, k, st, start, cs, after);
      GroupStepClose(w, k, after, start, cs);
    }
  }

  /**
   * Parsing the spelling of a constraint gives the constraint back and
   * consumes every token.
   */
  lemma ParseRoundTrip(c: Constraint, ts: seq<Token>)
    requires Printable(c) && Texts(ts) == Render(c)
    ensures ParseStream(AsIntended, TokenStream(ts, None)) == Parsed(Ok(c), TokenStream([], None))
  {
    TermOver(AsIntended, c, ts, TokenStream(ts, None), TokenStream([], None), None, []);
  }

  /**
   * Parsing the spellings of several constraints one after the other
   * gives any of them.
   */
  lemma TermsRoundTrip(cs: seq<Constraint>, ts: seq<Token>)
    requires |cs| >= 2 && AllPrintable(cs) && Texts(ts) == RenderAll(cs)
    ensures ParseStream(AsIntended, TokenStream(ts, None)) == Parsed(Ok(AnyOf(cs)), TokenStream([], None))
  {
    var empty := TokenStream([], None);
    assert Before(ts, TokenStream(ts, None), empty) by {
      assert ts + [] == ts;
    }
    ArgsOver(AsIntended, cs, ts, TokenStream(ts, None), empty, None, []);
    assert [] + cs == cs;
  }

  /** Tokens written out one after the other, each followed by a blank. */
  function Spaced(xs: seq<string>): string
    decreases xs
  {
    if xs == [] then [] else xs[0] + " " + Spaced(xs[1..])
  }

  /** What the tokenizer reads as one token: a punctuation character or a run of letters. */
  predicate IsLexeme(x: string)
  {
    (|x| == 1 && IsPunct(x[0])) || (x != [] && IsLetters(x))
  }

  predicate Lexemes(xs: seq<string>)
  {
    forall i :: 0 <= i < |xs| ==> IsLexeme(xs[i])
  }

  /** Every token of a printable constraint's spelling is one the tokenizer reads whole. */
  lemma {:induction false} RenderLexemes(c: Constraint)
    requires Printable(c)
    ensures Lexemes(Render(c))
    decreases c
  {
    match c
    case Word(w) =>
    case Wildcard =>
    case Optional(x) =>
      RenderLexemes(x);
    case Ordered(cs) =>
      RenderAllLexemes(cs);
    case AllOf(cs) =>
      RenderAllLexemes(cs);
    case ExactlyOne(cs) =>
      RenderAllLexemes(cs);
    case AnyOf(cs) =>
      RenderAllLexemes(cs);
  }

  lemma {:induction false} RenderAllLexemes(cs: seq<Constraint>)
    requires AllPrintable(cs)
    ensures Lexemes(RenderAll(cs))
    decreases cs
  {
    if cs != [] {
      assert cs[0] in cs;
      RenderLexemes(cs[0]);
      RenderAllLexemes(cs[1..]);
    }
  }

  /** Where lexemes written out with blanks sit in the text: the first, a blank, then the rest. */
  lemma SpacedAt(text: string, i: nat, xs: seq<string>)
    requires i <= |text| && text[i..] == Spaced(xs) && xs != []
    ensures i + |xs[0]| < |text| && text[i..i + |xs[0]|] == xs[0] && text[i + |xs[0]|] == ' '
    ensures text[i + |xs[0]| + 1..] == Spaced(xs[1..])
  {
    var x := xs[0];
    assert text[i..] == x + " " + Spaced(xs[1..]);
    assert text[i..i + |x|] == text[i..][..|x|];
    assert text[i + |x|] == text[i..][|x|];
    assert text[i + |x| + 1..] == text[i..][|x| + 1..];
  }

  /** A lexeme followed by a blank is read as one token and the blank is skipped. */
  lemma LexLexeme(text: string, i: nat, x: string)
    requires IsLexeme(x) && i + |x| < |text| && text[i..i + |x|] == x && IsBlank(text[i + |x|])
    ensures LexFrom(text, i) == Cons(Token(x, i), LexFrom(text, i + |x| + 1))
  {
    var j := i + |x|;
    LexAtBlank(text, j);
    if |x| == 1 && IsPunct(x[0]) {
      assert text[i] == text[i..j][0];
      LexAtPunct(text, i);
      assert [text[i]] == x;
    } else {
      assert forall k :: i <= k < j ==> IsLetter(text[k]) by {
        forall k | i <= k < j
          ensures IsLetter(text[k])
        {
          assert text[k] == x[k - i];
        }
      }
      LexRunEnds(text, i, j);
    }
  }

  lemma LexemesTail(xs: seq<string>)
    requires xs != [] && Lexemes(xs)
    ensures IsLexeme(xs[0]) && Lexemes(xs[1..])
  {
    forall k | 0 <= k < |xs[1..]|
      ensures IsLexeme(xs[1..][k])
    {
      assert xs[1..][k] == xs[k + 1];
    }
  }

  lemma TextsCons(t: Token, ts: seq<Token>)
    ensures Texts([t] + ts) == [t.text] + Texts(ts)
  {
  }

  /** One step of `LexSpaced`: the first lexeme, then what the rest of the text gives. */
  lemma LexSpacedStep(text: string, i: nat, xs: seq<string>)
    requires i <= |text| && text[i..] == Spaced(xs) && xs != [] && Lexemes(xs)
    requires i + |xs[0]| + 1 <= |text|
    requires LexFrom(text, i + |xs[0]| + 1).failure == None
    requires Texts(LexFrom(text, i + |xs[0]| + 1).tokens) == xs[1..]
    ensures LexFrom(text, i).failure == None && Texts(LexFrom(text, i).tokens) == xs
  {
    var x := xs[0];
    SpacedAt(text, i, xs);
    LexemesTail(xs);
    LexLexeme(text, i, x);
    TextsCons(Token(x, i), LexFrom(text, i + |x| + 1).tokens);
    assert [x] + xs[1..] == xs;
  }

  /** Tokenizing lexemes written out with blanks between them gives those lexemes back, with no error. */
  lemma {:induction false} LexSpaced(text: string, i: nat, xs: seq<string>)
    requires i <= |text| && text[i..] == Spaced(xs) && Lexemes(xs)
    ensures LexFrom(text, i).failure == None && Texts(LexFrom(text, i).tokens) == xs
    decreases xs
  {
    if xs == [] {
      assert |text[i..]| == 0;
    } else {
      SpacedAt(text, i, xs);
      LexemesTail(xs);
      LexSpaced(text, i + |xs[0]| + 1, xs[1..]);
      LexSpacedStep(text, i, xs);
    }
  }

  /**
   * The round trip at the level of text: a printable constraint written out
   * with a blank after each of its tokens is tokenized and parsed back to
   * itself.
   */
  lemma ParseTextRoundTrip(c: Constraint, text: string)
    requires Printable(c) && text == Spaced(Render(c))
    ensures ParseText(AsIntended, text) == Ok(c)
  {
    RenderLexemes(c);
    LexSpaced(text, 0, Render(c));
    var st := Lex(text);
    assert st == TokenStream(st.tokens, None);
    ParseRoundTrip(c, st.tokens);
  }

  /**
   * The parser as written reads every `?`-free constraint the same way as
   * the intended one, and fails on every optional term.
   */
  lemma AsWrittenOptionalFails(x: Constraint, ts: seq<Token>)
    requires Printable(x) && NoOptional(x) && Texts(ts) == Render(Optional(x))
    ensures ParseStream(AsWritten, TokenStream(ts, None)).result == Err(OptionalNotCallable(ts[|ts| - 1]))
    ensures ParseStream(AsIntended, TokenStream(ts, None)).result == Ok(Optional(x))
  {
    var n := |ts| - 1;
    TextsSplit(ts, n);
    var mid := TokenStream([ts[n]], None);
    assert ts[..n] + mid.tokens == ts;
    TermOver(AsWritten, x, ts[..n], TokenStream(ts, None), mid, None, []);
    ArgsStepOptional(AsWritten, mid, TokenStream([], None), None, [], x);
    ParseRoundTrip(Optional(x), ts);
  }

  /**
   * A group whose closing delimiter never comes fails, and the failure
   * names the opening delimiter.
   */
  lemma UnclosedGroupReported(w: Wrap, c: Constraint, ts: seq<Token>)
    requires KindOf(c).Some? && Printable(c) && (w == AsIntended || NoOptional(c))
    requires Texts(ts) == Render(c)[..|Render(c)| - 1]
    ensures ParseStream(w, TokenStream(ts, None)).result == Err(UnclosedGroup(ts[0]))
  {
    var k := KindOf(c).value;
    SplitUnclosed(w, c, ts);
    var mid := TokenStream(ts[1..], None);
    ReadsUnclosed(w, k, c.children, mid, ts[0]);
    ArgsStepGroupFails(w, TokenStream(ts, None), k, mid, None, [], UnclosedGroup(ts[0]));
  }

  /** A group body that spells some children and then stops fails against its opening token. */
  lemma {:induction false} ReadsUnclosed(w: Wrap, k: GroupKind, cs: seq<Constraint>, st: TokenStream, start: Token)
    requires AllPrintable(cs) && (w == AsIntended || AllNoOptional(cs))
    requires Texts(st.tokens) == RenderAll(cs) && st.failure.None?
    requires cs != [] ==> st.tokens != [] && !(End(k) <= st.tokens[0].text)
    ensures GroupBody(w, st, k, start, []).result == Err(UnclosedGroup(start))
  {
    var empty := TokenStream([], None);
    assert Before(st.tokens, st, empty) by {
      assert st.tokens + [] == st.tokens;
    }
    ArgsOver(w, cs, st.tokens, st, empty, Some(k), []);
    assert UntilOf(Some(k)) == Some(End(k)) && [] + cs == cs;
    GroupUnclosed(w, k, st, start, cs);
  }

  /** The spelling of a group without its closing delimiter. */
  lemma SplitUnclosed(w: Wrap, c: Constraint, ts: seq<Token>)
    requires KindOf(c).Some? && Printable(c) && (w == AsIntended || NoOptional(c))
    requires Texts(ts) == Render(c)[..|Render(c)| - 1]
    ensures ts != [] && ts[0].text == Begin(KindOf(c).value) && Texts(ts[1..]) == RenderAll(c.children)
    ensures AllPrintable(c.children) && (w == AsIntended || AllNoOptional(c.children))
    ensures c.children != [] ==> ts[1..] != [] && !(End(KindOf(c).value) <= ts[1].text)
  {
    var k := KindOf(c).value;
    RenderGroup(c);
    assert Texts(ts) == [Begin(k)] + RenderAll(c.children);
    TextsSplit(ts, 1);
    if c.children != [] {
      RenderStart(c.children[0]);
    }
  }

  /** A group body that reads its children and finds no closing delimiter fails against its opening token. */
  lemma {:induction false} GroupUnclosed(w: Wrap, k: GroupKind, st: TokenStream, start: Token, cs: seq<Constraint>)
    requires ArgsFrom(w, st, Some(End(k)), []) == ArgsFrom(w, TokenStream([], None), Some(End(k)), cs)
    requires cs != [] ==> st.tokens != [] && !(End(k) <= st.tokens[0].text)
    requires cs == [] ==> st == TokenStream([], None)
    ensures GroupBody(w, st, k, start, []).result == Err(UnclosedGroup(start))
  {
    if cs != [] {
      assert [] + cs == cs;
      GroupStepArgs(w, k, st, start, cs, TokenStream([], None));
    }
  }

  /** A group that fails makes the argument list fail the same way. */
  lemma {:induction false} ArgsStepGroupFails(w: Wrap, st: TokenStream, k: GroupKind, mid: TokenStream, until: Option<string>,
                                              acc: seq<Constraint>, e: LexOrParseError)
    requires st.tokens != [] && mid == TokenStream(st.tokens[1..], st.failure)
    requires !Ends(st.tokens[0].text, until) && st.tokens[0].text == Begin(k)
    requires GroupBody(w, mid, k, st.tokens[0], []).result == Err(e)
    ensures ArgsFrom(w, st, until, acc).result == Err(e)
  {
    assert GroupFrom(w, st, k).result == Err(e);
  }

  /**
   * A `?` that starts an argument list, at the top level or inside a group,
   * has no term before it: the list fails on that `?` without consuming it.
   */
  lemma EmptyArgsDanglingOptional(w: Wrap, st: TokenStream, until: Option<string>)
    requires st.tokens != [] && st.tokens[0].text == "?" && !Ends("?", until)
    ensures ArgsFrom(w, st, until, []) == Parsed(Err(DanglingOptional(st.tokens[0])), st)
  {
  }

  /**
   * A group whose body starts with `?`, such as `<?>` or the `{? b}` of
   * `a {? b}`, fails on that `?`, and so does the argument list it is in.
   */
  lemma GroupDanglingOptional(w: Wrap, st: TokenStream, k: GroupKind, until: Option<string>, acc: seq<Constraint>)
    requires |st.tokens| >= 2 && st.tokens[0].text == Begin(k) && st.tokens[1].text == "?"
    requires !Ends(Begin(k), until)
    ensures GroupFrom(w, st, k).result == Err(DanglingOptional(st.tokens[1]))
    ensures ArgsFrom(w, st, until, acc).result == Err(DanglingOptional(st.tokens[1]))
  {
    var mid := TokenStream(st.tokens[1..], st.failure);
    var e := DanglingOptional(st.tokens[1]);
    EmptyArgsDanglingOptional(w, mid, Some(End(k)));
    assert !(End(k) <= mid.tokens[0].text);
    assert GroupBody(w, mid, k, st.tokens[0], []).result == Err(e);
    ArgsStepGroupFails(w, st, k, mid, until, acc, e);
  }

  /** A `?` at the start of the text is an error. */
  lemma DanglingOptionalRejected(w: Wrap, st: TokenStream)
    requires st.tokens != [] && st.tokens[0].text == "?"
    ensures ParseStream(w, st).result == Err(DanglingOptional(st.tokens[0]))
  {
    EmptyArgsDanglingOptional(w, st, None);
  }

  /**
   * A successful parse consumed every token and the text has no illegal
   * character.
   */
  lemma ParsedTextLexes(w: Wrap, text: string)
    requires ParseText(w, text).Ok?
    ensures ParseStream(w, Lex(text)).rest == TokenStream([], None)
    ensures Lex(text).failure.None?
    ensures forall k :: 0 <= k < |text| ==> !IsIllegal(text[k])
  {
    LexFailsAtFirstIllegal(text, 0);
  }
}
