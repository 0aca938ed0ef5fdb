/**
 * The recursive-descent parser that turns a constraint's text into a
 * constraint tree: `<...>` ordered, `[...]` all of them in any order,
 * `(...)` exactly one, `{...}` any of them, `.` a wildcard, `x?` optional
 * and any other token a dictionary word.
 *
 * The parser reads its tokens through a `Tokenizer`. The functions below
 * state what each parsing routine returns and what it leaves in the
 * token stream; the `Parser` class runs the routines' loops against the
 * tokenizer and is proved to agree with them.
 */
module Parsing {
  import opened Text
  import opened Visie
  import opened Lexing

  /** The four kinds of group, one per pair of delimiters. */
  datatype GroupKind = OrderedGroup | AllOfGroup | ExactlyOneGroup | AnyOfGroup

  function Begin(k: GroupKind): (d: string)
    ensures |d| == 1 && IsPunct(d[0])
  {
    match k
    case OrderedGroup => "<"
    case AllOfGroup => "["
    case ExactlyOneGroup => "("
    case AnyOfGroup => "{"
  }

  /** The closer of a group: one punctuation character that opens no group. */
  function End(k: GroupKind): (d: string)
    ensures |d| == 1 && IsPunct(d[0])
    ensures forall k' :: Begin(k') != d
  {
    match k
    case OrderedGroup => ">"
    case AllOfGroup => "]"
    case ExactlyOneGroup => ")"
    case AnyOfGroup => "}"
  }

  /** Each kind has its own opener and its own closer. */
  lemma DelimitersDistinct(a: GroupKind, b: GroupKind)
    ensures Begin(a) == Begin(b) ==> a == b
    ensures End(a) == End(b) ==> a == b
  {
  }

  /** The constraint a group of the kind builds from its children. */
  function Build(k: GroupKind, children: seq<Constraint>): Constraint
  {
    match k
    case OrderedGroup => Ordered(children)
    case AllOfGroup => AllOf(children)
    case ExactlyOneGroup => ExactlyOne(children)
    case AnyOfGroup => AnyOf(children)
  }

  /** The group a token opens, if it is an opening delimiter. */
  function GroupKindOf(text: string): (r: Option<GroupKind>)
    ensures r.Some? ==> Begin(r.value) == text
    ensures r.None? ==> forall k :: Begin(k) != text
  {
    if text == "<" then Some(OrderedGroup)
    else if text == "[" then Some(AllOfGroup)
    else if text == "(" then Some(ExactlyOneGroup)
    else if text == "{" then Some(AnyOfGroup)
    else None
  }

  /**
   * How `x?` is turned into a constraint. The parser calls `Optional`
   * imported from `typing`, which cannot be instantiated, so as written
   * every `?` after a term raises; the evident intent is an optional
   * constraint around the term.
   */
  datatype Wrap = AsWritten | AsIntended

  /** `children[-1] = Optional([children[-1]])`. */
  function WrapLast(w: Wrap, children: seq<Constraint>, at: Token): Result<seq<Constraint>>
    requires children != []
  {
    match w
    case AsWritten => Err(OptionalNotCallable(at))
    case AsIntended => Ok(children[..|children| - 1] + [Optional(children[|children| - 1])])
  }

  /** What a parsing routine returns, or raises, and the token stream it leaves behind. */
  datatype Parsed<T> = Parsed(result: Result<T>, rest: TokenStream)

  /** `token == until`: the token ends the argument list. */
  predicate Ends(text: string, until: Option<string>)
  {
    until.Some? && until.value == text
  }

  /** An argument list that ends here stops at the end of the tokens or at its closing token. */
  predicate Stops(st: TokenStream, until: Option<string>)
  {
    (st.tokens == [] && st.failure.None?) || (st.tokens != [] && Ends(st.tokens[0].text, until))
  }

  /**
   * `_parse_arguments(until)`, with `children` the terms read so far: read
   * terms until the tokens run out or the next token is exactly `until`.
   * A group, `.` and a word each add a term; `?` wraps the last term.
   */
  function ArgsFrom(w: Wrap, st: TokenStream, until: Option<string>, children: seq<Constraint>): (p: Parsed<seq<Constraint>>)
    ensures |p.rest.tokens| <= |st.tokens|
    ensures p.result.Ok? ==> p.rest.failure == st.failure && Stops(p.rest, until)
    ensures p.result.Ok? && st.tokens != [] && !Ends(st.tokens[0].text, until) ==> |p.rest.tokens| < |st.tokens|
    decreases |st.tokens|, 1
  {
    var look := Lookahead(st);
    match look.next
    case Exhausted => Parsed(Ok(children), st)
    case Failed(j) => Parsed(Err(LexError(j)), look.rest)
    case Got(t) =>
      if Ends(t.text, until) then Parsed(Ok(children), st)
      else match GroupKindOf(t.text)
        case Some(k) =>
          var g := GroupFrom(w, st, k);
          if g.result.Err? then Parsed(Err(g.result.error), g.rest)
          else ArgsFrom(w, g.rest, until, children + [g.result.value])
        case None =>
          var popped := TokenStream(st.tokens[1..], st.failure);
          if t.text == "?" then
            if children == [] then Parsed(Err(DanglingOptional(t)), st)
            else match WrapLast(w, children, t)
              case Err(e) => Parsed(Err(e), popped)
              case Ok(wrapped) => ArgsFrom(w, popped, until, wrapped)
          else if t.text == "." then ArgsFrom(w, popped, until, children + [Wildcard])
          else ArgsFrom(w, popped, until, children + [Word(t.text)])
  }

  /** `_parse(kind)`: the opening delimiter, then the group's body. */
  function GroupFrom(w: Wrap, st: TokenStream, k: GroupKind): (p: Parsed<Constraint>)
    ensures |p.rest.tokens| <= |st.tokens|
    ensures st.tokens != [] ==> |p.rest.tokens| < |st.tokens|
    ensures p.result.Ok? ==> p.rest.failure == st.failure
    decreases |st.tokens|, 0
  {
    var s := ExpectOf(st, Begin(k));
    match s.result
    case Err(e) => Parsed(Err(e), s.rest)
    case Ok(start) => GroupBody(w, s.rest, k, start, [])
  }

  /**
   * The loop of `_parse`: read argument lists until the next token starts
   * with the closing delimiter or the tokens run out, then close the group.
   */
  function GroupBody(w: Wrap, st: TokenStream, k: GroupKind, start: Token, children: seq<Constraint>): (p: Parsed<Constraint>)
    ensures |p.rest.tokens| <= |st.tokens|
    ensures p.result.Ok? ==> p.rest.failure == st.failure
    decreases |st.tokens|, 2
  {
    var look := Lookahead(st);
    match look.next
    case Failed(j) => Parsed(Err(LexError(j)), look.rest)
    case Exhausted => Close(st, k, start, children)
    case Got(t) =>
      if End(k) <= t.text then Close(st, k, start, children)
      else
        var a := ArgsFrom(w, st, Some(End(k)), []);
        if a.result.Err? then Parsed(Err(a.result.error), a.rest)
        else GroupBody(w, a.rest, k, start, children + a.result.value)
  }

  /** The closing delimiter; its absence is reported against the opening token `start`. */
  function Close(st: TokenStream, k: GroupKind, start: Token, children: seq<Constraint>): (p: Parsed<Constraint>)
    ensures p.result.Ok? <==> st.tokens != [] && End(k) <= st.tokens[0].text
    ensures p.result.Ok? ==> p.result.value == Build(k, children) && p.rest == TokenStream(st.tokens[1..], st.failure)
    ensures p.result.Err? ==> p.result.error == UnclosedGroup(start)
  {
    var e := ExpectOf(st, End(k));
    if e.result.Ok? then Parsed(Ok(Build(k, children)), e.rest)
    else Parsed(Err(UnclosedGroup(start)), e.rest)
  }

  /** `parse()`: the top-level terms; one term is the constraint, several are any of them. */
  function ParseStream(w: Wrap, st: TokenStream): (p: Parsed<Constraint>)
  {
    var a := ArgsFrom(w, st, None, []);
    match a.result
    case Err(e) => Parsed(Err(e), a.rest)
    case Ok(terms) =>
      if |terms| == 0 then Parsed(Err(NoTerms), a.rest)
      else if |terms| == 1 then Parsed(Ok(terms[0]), a.rest)
      else Parsed(Ok(AnyOf(terms)), a.rest)
  }

  /** `Parser(text).parse()`. */
  function ParseText(w: Wrap, text: string): Result<Constraint>
  {
    ParseStream(w, Lex(text)).result
  }

  /** `Parser`: the text and the tokenizer over it. */
  class Parser {
    const text: string
    const tokenizer: Tokenizer

    constructor(text: string)
      ensures this.text == text && fresh(tokenizer) && tokenizer.Stream() == Lex(text)
    {
      this.text := text;
      tokenizer := new Tokenizer(text);
    }

    /** `_parse(kind)`. */
    method ParseGroup(k: GroupKind) returns (r: Result<Constraint>)
      modifies tokenizer
      ensures Parsed(r, tokenizer.Stream()) == GroupFrom(AsIntended, old(tokenizer.Stream()), k)
      decreases |tokenizer.Stream().tokens|, 0
    {
      ghost var st := tokenizer.Stream();
      var s := tokenizer.Expect(Begin(k));
      if s.Err? {
        return Err(s.error);
      }
      var children: seq<Constraint> := [];
      while true
        invariant GroupFrom(AsIntended, st, k) == GroupBody(AsIntended, tokenizer.Stream(), k, s.value, children)
        invariant |tokenizer.Stream().tokens| < |st.tokens|
        decreases |tokenizer.Stream().tokens|
      {
        var next := tokenizer.Peek();
        if next.Failed? {
          return Err(LexError(next.offset));
        }
        if next.Exhausted? || End(k) <= next.token.text {
          break;
        }
        var a := ParseArguments(Some(End(k)));
        if a.Err? {
          return Err(a.error);
        }
        children := children + a.value;
      }
      var e := tokenizer.Expect(End(k));
      if e.Err? {
        return Err(UnclosedGroup(s.value));
      }
      r := Ok(Build(k, children));
    }

    /** `_parse_arguments(until)`. */
    method ParseArguments(until: Option<string>) returns (r: Result<seq<Constraint>>)
      modifies tokenizer
      ensures Parsed(r, tokenizer.Stream()) == ArgsFrom(AsIntended, old(tokenizer.Stream()), until, [])
      decreases |tokenizer.Stream().tokens|, 1
    {
      ghost var st := tokenizer.Stream();
      var children: seq<Constraint> := [];
      while true
        invariant ArgsFrom(AsIntended, st, until, []) == ArgsFrom(AsIntended, tokenizer.Stream(), until, children)
        invariant |tokenizer.Stream().tokens| <= |st.tokens|
        decreases |tokenizer.Stream().tokens|
      {
        var next := tokenizer.Peek();
        if next.Failed? {
          return Err(LexError(next.offset));
        }
        if next.Exhausted? || Ends(next.token.text, until) {
          return Ok(children);
        }
        var t := next.token;
        var kind := GroupKindOf(t.text);
        if kind.Some? {
          var g := ParseGroup(kind.value);
          if g.Err? {
            return Err(g.error);
          }
          children := children + [g.value];
        } else if t.text == "?" {
          if children == [] {
            return Err(DanglingOptional(t));
          }
          var _ := tokenizer.Pop();
          children := children[..|children| - 1] + [Optional(children[|children| - 1])];
        } else if t.text == "." {
          var _ := tokenizer.Pop();
          children := children + [Wildcard];
        } else {
          var _ := tokenizer.Pop();
          children := children + [Word(t.text)];
        }
      }
    }

    /** `parse()`. */
    method Parse() returns (r: Result<Constraint>)
      modifies tokenizer
      ensures Parsed(r, tokenizer.Stream()) == ParseStream(AsIntended, old(tokenizer.Stream()))
    {
      var a := ParseArguments(None);
      if a.Err? {
        return Err(a.error);
      }
      var terms := a.value;
      if |terms| == 0 {
        r := Err(NoTerms);
      } else if |terms| == 1 {
        r := Ok(terms[0]);
      } else {
        r := Ok(AnyOf(terms));
      }
    }
  }
}
