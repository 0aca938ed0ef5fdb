/**
 * The constraint tree of visie and its backtracking matcher.
 *
 * A constraint consumes the letters of a candidate word from left to right;
 * every leaf consumes exactly one letter. `Match(c, s)` is the finite list of
 * every way `c` can consume a prefix of `s`, in the order the source's
 * generators produce them. Each result is an `Acronym`: the items the leaves
 * produced and the part of `s` left over.
 */
module Visie {
  import opened Text

  /** A non-empty string: a dictionary word, or the one letter a wildcard produced. */
  type Item = s: string | |s| > 0 witness "."

  /** `Acronym`: the produced items and the unconsumed remainder. */
  datatype Acronym = Acronym(items: seq<Item>, remainder: string)

  /** `Acronym.is_partial`: the remainder is not empty. */
  predicate IsPartial(a: Acronym) { a.remainder != [] }

  /** `Acronym.__bool__`: a result is complete when it left nothing over. */
  predicate IsComplete(a: Acronym) { !IsPartial(a) }

  /** `Acronym.__add__`: the items of both, the remainder of the second. */
  function Plus(a: Acronym, b: Acronym): Acronym
  {
    Acronym(a.items + b.items, b.remainder)
  }

  /** `Acronym.name`: the upper-cased first character of every item. */
  function Name(a: Acronym): string
  {
    seq(|a.items|, i requires 0 <= i < |a.items| => Upper(a.items[i][0]))
  }

  /** `Plus(r, m)` for every `m` of `ms`, in order. */
  function Prefixed(r: Acronym, ms: seq<Acronym>): seq<Acronym>
  {
    seq(|ms|, i requires 0 <= i < |ms| => Plus(r, ms[i]))
  }

  /**
   * The constraint kinds the parser builds. Python's `OptionalConstraint` is an
   * `OrderedConstraint` over a tuple of children; the parser always gives it
   * exactly one, so here it wraps one child.
   */
  datatype Constraint =
    | Word(word: Item)                       // DictionaryWord
    | Wildcard                               // .
    | AnyOf(children: seq<Constraint>)       // { }
    | Ordered(children: seq<Constraint>)     // < >
    | AllOf(children: seq<Constraint>)       // [ ]
    | ExactlyOne(children: seq<Constraint>)  // ( )
    | Optional(child: Constraint)            // ?

  /** Number of nodes; the termination measure of the matcher. */
  function Size(c: Constraint): (n: nat)
    ensures n >= 1
    decreases c
  {
    match c
    case Word(_) => 1
    case Wildcard => 1
    case Optional(x) => 1 + Size(x)
    case AnyOf(kids) => 1 + SizeOf(kids)
    case Ordered(kids) => 1 + SizeOf(kids)
    case AllOf(kids) => 1 + SizeOf(kids)
    case ExactlyOne(kids) => 1 + SizeOf(kids)
  }

  function SizeOf(kids: seq<Constraint>): nat
    decreases kids
  {
    if kids == [] then 0 else Size(kids[0]) + SizeOf(kids[1..])
  }

  lemma SizeOfConcat(a: seq<Constraint>, b: seq<Constraint>)
    ensures SizeOf(a + b) == SizeOf(a) + SizeOf(b)
  {
    if a != [] {
      assert (a + b)[1..] == a[1..] + b;
      SizeOfConcat(a[1..], b);
    } else {
      assert a + b == b;
    }
  }

  /** `children[:i] + children[i+1:]`: the children without the i-th one. */
  function Without(kids: seq<Constraint>, i: nat): (rest: seq<Constraint>)
    requires i < |kids|
    ensures |rest| == |kids| - 1
    ensures SizeOf(rest) + Size(kids[i]) == SizeOf(kids)
  {
    assert kids == kids[..i] + ([kids[i]] + kids[i + 1..]);
    SizeOfConcat(kids[..i], [kids[i]] + kids[i + 1..]);
    SizeOfConcat(kids[..i], kids[i + 1..]);
    kids[..i] + kids[i + 1..]
  }

  /**
   * `c.match(s)`. The leaves index `s[0]`, so the source only calls `match`
   * on a non-empty word; the empty word is `MatchEmpty` below.
   */
  function Match(c: Constraint, s: string): seq<Acronym>
    requires s != []
    decreases Size(c), 0, 0
  {
    match c
    case Word(w) => if Lower(s[0]) == Lower(w[0]) then [Acronym([w], s[1..])] else []
    case Wildcard => [Acronym([[s[0]]], s[1..])]
    case AnyOf(kids) => AnyOfMatch(kids, s)
    case Ordered(kids) => OrderedMatch(kids, s)
    case AllOf(kids) => AllOfMatch(kids, s)
    case ExactlyOne(kids) => ExactlyOneMatch(kids, s)
    case Optional(x) =>
      assert SizeOf([x]) == Size(x) by { assert [x][1..] == []; }
      [Acronym([], s)] + OrderedMatch([x], s)
  }

  /** `OrderedConstraint._match(s, kids)`. */
  function OrderedMatch(kids: seq<Constraint>, s: string): seq<Acronym>
    requires s != []
    decreases SizeOf(kids), 2, 0
  {
    if kids == [] then [] else OrderedEach(kids, Match(kids[0], s))
  }

  /** The loop of `OrderedConstraint._match` over the results `rs` of the first child. */
  function OrderedEach(kids: seq<Constraint>, rs: seq<Acronym>): seq<Acronym>
    requires kids != []
    decreases SizeOf(kids), 1, |rs|
  {
    if rs == [] then [] else OrderedNext(kids, rs[0]) + OrderedEach(kids, rs[1..])
  }

  /**
   * What one result `r` of the first child becomes: the last child passes it
   * through; a non-final child's result continues into the other children
   * only when it left letters over, and is dropped when it is complete.
   */
  function OrderedNext(kids: seq<Constraint>, r: Acronym): seq<Acronym>
    requires kids != []
    decreases SizeOf(kids), 0, 0
  {
    if |kids| == 1 then [r]
    else if IsComplete(r) then []
    else Prefixed(r, OrderedMatch(kids[1..], r.remainder))
  }

  /** `ExactlyOneConstraint.match`: every child's results, child by child. */
  function ExactlyOneMatch(kids: seq<Constraint>, s: string): seq<Acronym>
    requires s != []
    decreases SizeOf(kids), 1, 0
  {
    if kids == [] then [] else Match(kids[0], s) + ExactlyOneMatch(kids[1..], s)
  }

  /** `AnyOfConstraint._match(s, kids)`. */
  function AnyOfMatch(kids: seq<Constraint>, s: string): seq<Acronym>
    requires s != []
    decreases SizeOf(kids), 3, 0
  {
    AnyOfFrom(kids, 0, s)
  }

  /** The iterations `i, i+1, ...` of the outer loop of `AnyOfConstraint._match`. */
  function AnyOfFrom(kids: seq<Constraint>, i: nat, s: string): seq<Acronym>
    requires i <= |kids| && s != []
    decreases SizeOf(kids), 2, |kids| - i
  {
    if i == |kids| then []
    else
      assert Size(kids[i]) <= SizeOf(kids) by { var _ := Without(kids, i); }
      AnyOfEach(kids, i, Match(kids[i], s)) + AnyOfFrom(kids, i + 1, s)
  }

  /** The inner loop of `AnyOfConstraint._match` over the results `rs` of child `i`. */
  function AnyOfEach(kids: seq<Constraint>, i: nat, rs: seq<Acronym>): seq<Acronym>
    requires i < |kids|
    decreases SizeOf(kids), 1, |rs|
  {
    if rs == [] then [] else AnyOfNext(kids, i, rs[0]) + AnyOfEach(kids, i, rs[1..])
  }

  /**
   * What one result `r` of child `i` becomes: a complete result is yielded
   * as it is; a partial one continues into the children other than `i`.
   */
  function AnyOfNext(kids: seq<Constraint>, i: nat, r: Acronym): seq<Acronym>
    requires i < |kids|
    decreases SizeOf(kids), 0, 0
  {
    if IsComplete(r) then [r]
    else Prefixed(r, AnyOfMatch(Without(kids, i), r.remainder))
  }

  /**
   * `AllOfConstraint._match(s, remaining)`. The source keeps a frozenset of
   * child indices; the model fixes ascending order, keeping the remaining
   * children in order and removing one by position. CPython iterates the
   * frozensets in that same order for up to 8 children; with more, only
   * the order of the results can differ, not the results themselves.
   */
  function AllOfMatch(kids: seq<Constraint>, s: string): seq<Acronym>
    requires s != []
    decreases SizeOf(kids), 3, 0
  {
    AllOfFrom(kids, 0, s)
  }

  function AllOfFrom(kids: seq<Constraint>, i: nat, s: string): seq<Acronym>
    requires i <= |kids| && s != []
    decreases SizeOf(kids), 2, |kids| - i
  {
    if i == |kids| then []
    else
      assert Size(kids[i]) <= SizeOf(kids) by { var _ := Without(kids, i); }
      AllOfEach(kids, i, Match(kids[i], s)) + AllOfFrom(kids, i + 1, s)
  }

  /** The inner loop of `AllOfConstraint._match` over the results `rs` of child `i`. */
  function AllOfEach(kids: seq<Constraint>, i: nat, rs: seq<Acronym>): seq<Acronym>
    requires i < |kids|
    decreases SizeOf(kids), 1, |rs|
  {
    if rs == [] then [] else AllOfNext(kids, i, rs[0]) + AllOfEach(kids, i, rs[1..])
  }

  /**
   * What one result `r` of child `i` becomes: the last remaining child passes
   * it through; otherwise it continues into the other remaining children
   * only when it left letters over, and is dropped when it is complete.
   */
  function AllOfNext(kids: seq<Constraint>, i: nat, r: Acronym): seq<Acronym>
    requires i < |kids|
    decreases SizeOf(kids), 0, 0
  {
    if |kids| == 1 then [r]
    else if IsComplete(r) then []
    else Prefixed(r, AllOfMatch(Without(kids, i), r.remainder))
  }

  /** `Constraint.matches`: the complete results only. */
  function Matches(c: Constraint, s: string): (out: seq<Acronym>)
    requires s != []
  {
    CompleteOnly(Match(c, s))
  }

  function CompleteOnly(rs: seq<Acronym>): (out: seq<Acronym>)
    ensures forall r :: r in out ==> IsComplete(r)
    ensures forall r :: r in out <==> r in rs && IsComplete(r)
  {
    if rs == [] then []
    else (if IsComplete(rs[0]) then [rs[0]] else []) + CompleteOnly(rs[1..])
  }

  /** What a generator yields before it stops, and whether it stopped by raising. */
  datatype Run = Run(results: seq<Acronym>, raised: bool)

  /** Running `a`'s generator and then `b`'s, unless `a` raised. */
  function Then(a: Run, b: Run): Run
  {
    if a.raised then a else Run(a.results + b.results, b.raised)
  }

  /**
   * `c.match("")`. Every leaf raises IndexError on `word[0]`; the combinators
   * yield what their children yielded up to the first raise. On the empty
   * word every result is complete (see `CombinatorLaws.EmptyRunResults`), so a
   * non-final child of `<>` or `[]` has all its results dropped and `{}`
   * never recurses.
   */
  function MatchEmpty(c: Constraint): Run
  {
    match c
    case Word(_) => Run([], true)
    case Wildcard => Run([], true)
    case AnyOf(kids) => EmptyEach(kids)
    case ExactlyOne(kids) => EmptyEach(kids)
    case Ordered(kids) =>
      if kids == [] then Run([], false)
      else if |kids| == 1 then MatchEmpty(kids[0])
      else Run([], MatchEmpty(kids[0]).raised)
    case AllOf(kids) =>
      if |kids| == 1 then MatchEmpty(kids[0])
      else Run([], EmptyEach(kids).raised)
    case Optional(x) => Then(Run([Acronym([], [])], false), MatchEmpty(x))
  }

  /** The children's runs on the empty word, one after the other. */
  function EmptyEach(kids: seq<Constraint>): Run
  {
    if kids == [] then Run([], false) else Then(MatchEmpty(kids[0]), EmptyEach(kids[1..]))
  }

  /** `min_length()` returns without raising: every `()` it reaches has a child. */
  predicate HasMin(c: Constraint)
  {
    match c
    case Word(_) => true
    case Wildcard => true
    case AnyOf(_) => true
    case Optional(_) => true
    case Ordered(kids) => forall k :: k in kids ==> HasMin(k)
    case AllOf(kids) => forall k :: k in kids ==> HasMin(k)
    case ExactlyOne(kids) => kids != [] && forall k :: k in kids ==> HasMin(k)
  }

  /** `max_length()` returns without raising: no `()` in the tree is empty. */
  predicate HasMax(c: Constraint)
  {
    match c
    case Word(_) => true
    case Wildcard => true
    case Optional(x) => HasMax(x)
    case AnyOf(kids) => forall k :: k in kids ==> HasMax(k)
    case Ordered(kids) => forall k :: k in kids ==> HasMax(k)
    case AllOf(kids) => forall k :: k in kids ==> HasMax(k)
    case ExactlyOne(kids) => kids != [] && forall k :: k in kids ==> HasMax(k)
  }

  /** `min_length()`: the fewest letters `c` can consume. */
  function MinLength(c: Constraint): nat
    requires HasMin(c)
  {
    match c
    case Word(_) => 1
    case Wildcard => 1
    case AnyOf(_) => 0
    case Optional(_) => 0
    case Ordered(kids) => SumMin(kids)
    case AllOf(kids) => SumMin(kids)
    case ExactlyOne(kids) => MinOfMins(kids)
  }

  /** `max_length()`: the most letters `c` can consume. */
  function MaxLength(c: Constraint): nat
    requires HasMax(c)
  {
    match c
    case Word(_) => 1
    case Wildcard => 1
    case Optional(x) => MaxLength(x)
    case AnyOf(kids) => SumMax(kids)
    case Ordered(kids) => SumMax(kids)
    case AllOf(kids) => SumMax(kids)
    case ExactlyOne(kids) => MaxOfMaxes(kids)
  }

  function SumMin(kids: seq<Constraint>): nat
    requires forall k :: k in kids ==> HasMin(k)
  {
    if kids == [] then 0 else MinLength(kids[0]) + SumMin(kids[1..])
  }

  function SumMax(kids: seq<Constraint>): nat
    requires forall k :: k in kids ==> HasMax(k)
  {
    if kids == [] then 0 else MaxLength(kids[0]) + SumMax(kids[1..])
  }

  function MinOfMins(kids: seq<Constraint>): nat
    requires kids != [] && forall k :: k in kids ==> HasMin(k)
  {
    if |kids| == 1 then MinLength(kids[0])
    else
      var m := MinOfMins(kids[1..]);
      if MinLength(kids[0]) <= m then MinLength(kids[0]) else m
  }

  function MaxOfMaxes(kids: seq<Constraint>): nat
    requires kids != [] && forall k :: k in kids ==> HasMax(k)
  {
    if |kids| == 1 then MaxLength(kids[0])
    else
      var m := MaxOfMaxes(kids[1..]);
      if MaxLength(kids[0]) >= m then MaxLength(kids[0]) else m
  }
}
