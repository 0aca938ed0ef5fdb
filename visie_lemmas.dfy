/**
 * What the matcher promises: every result consumes a prefix of the word, one
 * letter per item, and spells its upper-cased prefix; item counts lie
 * between `MinLength` and `MaxLength`; and the laws of each combinator.
 */
module VisieLemmas {
  import opened Text
  import opened Visie

  /** `r` consumed the first `|r.items|` letters of `s`, one per item, and its name spells them. */
  predicate Consumed(r: Acronym, s: string)
  {
    && |r.items| <= |s|
    && r.remainder == s[|r.items|..]
    && Name(r) == UpperString(s[..|r.items|])
  }

  predicate AllConsumed(rs: seq<Acronym>, s: string)
  {
    forall r :: r in rs ==> Consumed(r, s)
  }

  /** `name()` distributes over `+`. */
  lemma NamePlus(a: Acronym, b: Acronym)
    ensures Name(Plus(a, b)) == Name(a) + Name(b)
  {
  }

  lemma ConsumedPlus(r: Acronym, m: Acronym, s: string)
    requires Consumed(r, s) && Consumed(m, r.remainder)
    ensures Consumed(Plus(r, m), s)
  {
    var a, b := |r.items|, |m.items|;
    assert s[..a] + s[a..][..b] == s[..a + b];
    UpperStringConcat(s[..a], s[a..][..b]);
    NamePlus(r, m);
  }

  lemma PrefixedConsumed(r: Acronym, ms: seq<Acronym>, s: string)
    requires Consumed(r, s) && AllConsumed(ms, r.remainder)
    ensures AllConsumed(Prefixed(r, ms), s)
  {
    forall x | x in Prefixed(r, ms) ensures Consumed(x, s) {
      var k :| 0 <= k < |ms| && x == Prefixed(r, ms)[k];
      ConsumedPlus(r, ms[k], s);
    }
  }

  /**
   * Consumption invariant: every result of `c.match(s)` consumed a prefix of
   * `s`, one letter per item, its remainder is the rest of `s`, and its name
   * is that prefix upper-cased.
   */
  lemma {:induction false} MatchConsumes(c: Constraint, s: string)
    requires s != []
    ensures AllConsumed(Match(c, s), s)
    decreases Size(c), 0, 0
  {
    match c
    case Word(w) =>
      if Lower(s[0]) == Lower(w[0]) {
        SameLowerSameUpper(s[0], w[0]);
        assert Name(Acronym([w], s[1..])) == UpperString(s[..1]);
      }
    case Wildcard =>
      assert Name(Acronym([[s[0]]], s[1..])) == UpperString(s[..1]);
    case AnyOf(kids) => AnyOfConsumes(kids, 0, s);
    case Ordered(kids) => OrderedConsumes(kids, s);
    case AllOf(kids) => AllOfConsumes(kids, 0, s);
    case ExactlyOne(kids) => ExactlyOneConsumes(kids, s);
    case Optional(x) =>
      assert SizeOf([x]) == Size(x) by { assert [x][1..] == []; }
      OrderedConsumes([x], s);
      assert Consumed(Acronym([], s), s);
  }

  lemma {:induction false} OrderedConsumes(kids: seq<Constraint>, s: string)
    requires s != []
    ensures AllConsumed(OrderedMatch(kids, s), s)
    decreases SizeOf(kids), 2, 0
  {
    if kids != [] {
      MatchConsumes(kids[0], s);
      OrderedEachConsumes(kids, Match(kids[0], s), s);
    }
  }

  lemma {:induction false} OrderedEachConsumes(kids: seq<Constraint>, rs: seq<Acronym>, s: string)
    requires kids != [] && AllConsumed(rs, s)
    ensures AllConsumed(OrderedEach(kids, rs), s)
    decreases SizeOf(kids), 1, |rs|
  {
    if rs != [] {
      var r := rs[0];
      if |kids| > 1 && IsPartial(r) {
        OrderedConsumes(kids[1..], r.remainder);
        PrefixedConsumed(r, OrderedMatch(kids[1..], r.remainder), s);
      }
      OrderedEachConsumes(kids, rs[1..], s);
    }
  }

  lemma {:induction false} ExactlyOneConsumes(kids: seq<Constraint>, s: string)
    requires s != []
    ensures AllConsumed(ExactlyOneMatch(kids, s), s)
    decreases SizeOf(kids), 1, 0
  {
    if kids != [] {
      MatchConsumes(kids[0], s);
      ExactlyOneConsumes(kids[1..], s);
    }
  }

  lemma {:induction false} AnyOfConsumes(kids: seq<Constraint>, i: nat, s: string)
    requires i <= |kids| && s != []
    ensures AllConsumed(AnyOfFrom(kids, i, s), s)
    decreases SizeOf(kids), 2, |kids| - i
  {
    if i < |kids| {
      assert Size(kids[i]) <= SizeOf(kids) by { var _ := Without(kids, i); }
      MatchConsumes(kids[i], s);
      AnyOfEachConsumes(kids, i, Match(kids[i], s), s);
      AnyOfConsumes(kids, i + 1, s);
    }
  }

  lemma {:induction false} AnyOfEachConsumes(kids: seq<Constraint>, i: nat, rs: seq<Acronym>, s: string)
    requires i < |kids| && AllConsumed(rs, s)
    ensures AllConsumed(AnyOfEach(kids, i, rs), s)
    decreases SizeOf(kids), 1, |rs|
  {
    if rs != [] {
      var r := rs[0];
      if IsPartial(r) {
        AnyOfConsumes(Without(kids, i), 0, r.remainder);
        PrefixedConsumed(r, AnyOfMatch(Without(kids, i), r.remainder), s);
      }
      AnyOfEachConsumes(kids, i, rs[1..], s);
    }
  }

  lemma {:induction false} AllOfConsumes(kids: seq<Constraint>, i: nat, s: string)
    requires i <= |kids| && s != []
    ensures AllConsumed(AllOfFrom(kids, i, s), s)
    decreases SizeOf(kids), 2, |kids| - i
  {
    if i < |kids| {
      assert Size(kids[i]) <= SizeOf(kids) by { var _ := Without(kids, i); }
      MatchConsumes(kids[i], s);
      AllOfEachConsumes(kids, i, Match(kids[i], s), s);
      AllOfConsumes(kids, i + 1, s);
    }
  }

  lemma {:induction false} AllOfEachConsumes(kids: seq<Constraint>, i: nat, rs: seq<Acronym>, s: string)
    requires i < |kids| && AllConsumed(rs, s)
    ensures AllConsumed(AllOfEach(kids, i, rs), s)
    decreases SizeOf(kids), 1, |rs|
  {
    if rs != [] {
      var r := rs[0];
      if |kids| > 1 && IsPartial(r) {
        AllOfConsumes(Without(kids, i), 0, r.remainder);
        PrefixedConsumed(r, AllOfMatch(Without(kids, i), r.remainder), s);
      }
      AllOfEachConsumes(kids, i, rs[1..], s);
    }
  }

  /** A complete match of `s` has one item per letter and spells `s` upper-cased. */
  lemma CompleteMatchSpellsWord(c: Constraint, s: string, r: Acronym)
    requires s != [] && r in Matches(c, s)
    ensures |r.items| == |s|
    ensures Name(r) == UpperString(s)
  {
    MatchConsumes(c, s);
    assert s[..|s|] == s;
  }

  lemma {:induction false} HasMaxHasMin(c: Constraint)
    requires HasMax(c)
    ensures HasMin(c)
  {
    match c
    case Ordered(kids) => forall k | k in kids ensures HasMin(k) { HasMaxHasMin(k); }
    case AllOf(kids) => forall k | k in kids ensures HasMin(k) { HasMaxHasMin(k); }
    case ExactlyOne(kids) => forall k | k in kids ensures HasMin(k) { HasMaxHasMin(k); }
    case _ =>
  }

  lemma AllHaveMin(kids: seq<Constraint>)
    requires forall k :: k in kids ==> HasMax(k)
    ensures forall k :: k in kids ==> HasMin(k)
  {
    forall k | k in kids ensures HasMin(k) { HasMaxHasMin(k); }
  }

  predicate Within(r: Acronym, lo: nat, hi: nat)
  {
    lo <= |r.items| <= hi
  }

  predicate AllWithin(rs: seq<Acronym>, lo: nat, hi: nat)
  {
    forall r :: r in rs ==> Within(r, lo, hi)
  }

  lemma PrefixedWithin(r: Acronym, ms: seq<Acronym>, lo: nat, hi: nat, lo': nat, hi': nat)
    requires Within(r, lo, hi) && AllWithin(ms, lo', hi')
    ensures AllWithin(Prefixed(r, ms), lo + lo', hi + hi')
  {
    forall x | x in Prefixed(r, ms) ensures Within(x, lo + lo', hi + hi') {
      var k :| 0 <= k < |ms| && x == Prefixed(r, ms)[k];
      assert ms[k] in ms;
    }
  }

  lemma {:induction false} SumsConcat(a: seq<Constraint>, b: seq<Constraint>)
    requires forall k :: k in a + b ==> HasMax(k)
    ensures forall k :: k in a + b ==> HasMin(k)
    ensures SumMin(a + b) == SumMin(a) + SumMin(b)
    ensures SumMax(a + b) == SumMax(a) + SumMax(b)
  {
    AllHaveMin(a + b);
    if a == [] {
      assert a + b == b;
    } else {
      assert (a + b)[1..] == a[1..] + b;
      SumsConcat(a[1..], b);
    }
  }

  /** Taking out one child takes its share out of both sums. */
  lemma SumsWithout(kids: seq<Constraint>, i: nat)
    requires i < |kids| && forall k :: k in kids ==> HasMax(k)
    ensures forall k :: k in kids ==> HasMin(k)
    ensures SumMin(Without(kids, i)) + MinLength(kids[i]) == SumMin(kids)
    ensures SumMax(Without(kids, i)) + MaxLength(kids[i]) == SumMax(kids)
  {
    AllHaveMin(kids);
    assert kids == kids[..i] + ([kids[i]] + kids[i + 1..]);
    SumsConcat(kids[..i], [kids[i]] + kids[i + 1..]);
    SumsConcat(kids[..i], kids[i + 1..]);
    assert ([kids[i]] + kids[i + 1..])[1..] == kids[i + 1..];
  }

  lemma {:induction false} ExtremesBound(kids: seq<Constraint>)
    requires kids != [] && forall k :: k in kids ==> HasMax(k)
    ensures forall k :: k in kids ==> HasMin(k)
    ensures forall k :: k in kids ==> MinOfMins(kids) <= MinLength(k) && MaxLength(k) <= MaxOfMaxes(kids)
  {
    AllHaveMin(kids);
    if |kids| > 1 {
      ExtremesBound(kids[1..]);
      forall k | k in kids
        ensures MinOfMins(kids) <= MinLength(k) && MaxLength(k) <= MaxOfMaxes(kids)
      {
        if k != kids[0] { assert k in kids[1..]; }
      }
    }
  }

  /**
   * Length bounds: every result of `c.match(s)` has between `min_length()`
   * and `max_length()` items, that is, consumed that many letters.
   */
  lemma {:induction false} MatchBounds(c: Constraint, s: string)
    requires s != [] && HasMax(c)
    ensures HasMin(c)
    ensures AllWithin(Match(c, s), MinLength(c), MaxLength(c))
    decreases Size(c), 0, 0
  {
    HasMaxHasMin(c);
    match c
    case Word(_) =>
    case Wildcard =>
    case AnyOf(kids) => AnyOfBounds(kids, 0, s);
    case Ordered(kids) => OrderedBounds(kids, s);
    case AllOf(kids) => AllOfBounds(kids, 0, s);
    case ExactlyOne(kids) =>
      ExtremesBound(kids);
      ExactlyOneBounds(kids, s, MinOfMins(kids), MaxOfMaxes(kids));
    case Optional(x) =>
      assert SizeOf([x]) == Size(x) by { assert [x][1..] == []; }
      assert [x][1..] == [];
      assert SumMax([x]) == MaxLength(x);
      OrderedBounds([x], s);
  }

  lemma {:induction false} OrderedBounds(kids: seq<Constraint>, s: string)
    requires s != [] && forall k :: k in kids ==> HasMax(k)
    ensures forall k :: k in kids ==> HasMin(k)
    ensures AllWithin(OrderedMatch(kids, s), SumMin(kids), SumMax(kids))
    decreases SizeOf(kids), 2, 0
  {
    AllHaveMin(kids);
    if kids != [] {
      MatchBounds(kids[0], s);
      OrderedEachBounds(kids, Match(kids[0], s));
    }
  }

  lemma {:induction false} OrderedEachBounds(kids: seq<Constraint>, rs: seq<Acronym>)
    requires kids != [] && forall k :: k in kids ==> HasMax(k)
    requires HasMin(kids[0]) && AllWithin(rs, MinLength(kids[0]), MaxLength(kids[0]))
    ensures forall k :: k in kids ==> HasMin(k)
    ensures AllWithin(OrderedEach(kids, rs), SumMin(kids), SumMax(kids))
    decreases SizeOf(kids), 1, |rs|
  {
    AllHaveMin(kids);
    if rs != [] {
      var r := rs[0];
      if |kids| > 1 && IsPartial(r) {
        OrderedBounds(kids[1..], r.remainder);
        PrefixedWithin(r, OrderedMatch(kids[1..], r.remainder),
          MinLength(kids[0]), MaxLength(kids[0]), SumMin(kids[1..]), SumMax(kids[1..]));
      }
      OrderedEachBounds(kids, rs[1..]);
    }
  }

  lemma {:induction false} ExactlyOneBounds(kids: seq<Constraint>, s: string, lo: nat, hi: nat)
    requires s != [] && forall k :: k in kids ==> HasMax(k) && HasMin(k)
    requires forall k :: k in kids ==> lo <= MinLength(k) && MaxLength(k) <= hi
    ensures AllWithin(ExactlyOneMatch(kids, s), lo, hi)
    decreases SizeOf(kids), 1, 0
  {
    if kids != [] {
      MatchBounds(kids[0], s);
      ExactlyOneBounds(kids[1..], s, lo, hi);
    }
  }

  lemma {:induction false} AnyOfBounds(kids: seq<Constraint>, i: nat, s: string)
    requires i <= |kids| && s != [] && forall k :: k in kids ==> HasMax(k)
    ensures AllWithin(AnyOfFrom(kids, i, s), 0, SumMax(kids))
    decreases SizeOf(kids), 2, |kids| - i
  {
    if i < |kids| {
      assert Size(kids[i]) <= SizeOf(kids) by { var _ := Without(kids, i); }
      MatchBounds(kids[i], s);
      AnyOfEachBounds(kids, i, Match(kids[i], s));
      AnyOfBounds(kids, i + 1, s);
    }
  }

  lemma {:induction false} AnyOfEachBounds(kids: seq<Constraint>, i: nat, rs: seq<Acronym>)
    requires i < |kids| && forall k :: k in kids ==> HasMax(k)
    requires AllWithin(rs, 0, MaxLength(kids[i]))
    ensures AllWithin(AnyOfEach(kids, i, rs), 0, SumMax(kids))
    decreases SizeOf(kids), 1, |rs|
  {
    SumsWithout(kids, i);
    if rs != [] {
      var r := rs[0];
      assert r in rs;
      if IsPartial(r) {
        var rest := Without(kids, i);
        assert forall k :: k in rest ==> k in kids;
        AnyOfBounds(rest, 0, r.remainder);
        PrefixedWithin(r, AnyOfMatch(rest, r.remainder), 0, MaxLength(kids[i]), 0, SumMax(rest));
      }
      assert AllWithin(AnyOfNext(kids, i, r), 0, SumMax(kids));
      AnyOfEachBounds(kids, i, rs[1..]);
    }
  }

  lemma {:induction false} AllOfBounds(kids: seq<Constraint>, i: nat, s: string)
    requires i <= |kids| && s != [] && forall k :: k in kids ==> HasMax(k)
    ensures forall k :: k in kids ==> HasMin(k)
    ensures AllWithin(AllOfFrom(kids, i, s), SumMin(kids), SumMax(kids))
    decreases SizeOf(kids), 2, |kids| - i
  {
    AllHaveMin(kids);
    if i < |kids| {
      assert Size(kids[i]) <= SizeOf(kids) by { var _ := Without(kids, i); }
      MatchBounds(kids[i], s);
      AllOfEachBounds(kids, i, Match(kids[i], s));
      AllOfBounds(kids, i + 1, s);
    }
  }

  lemma {:induction false} AllOfEachBounds(kids: seq<Constraint>, i: nat, rs: seq<Acronym>)
    requires i < |kids| && forall k :: k in kids ==> HasMax(k)
    requires HasMin(kids[i]) && AllWithin(rs, MinLength(kids[i]), MaxLength(kids[i]))
    ensures forall k :: k in kids ==> HasMin(k)
    ensures AllWithin(AllOfEach(kids, i, rs), SumMin(kids), SumMax(kids))
    decreases SizeOf(kids), 1, |rs|
  {
    SumsWithout(kids, i);
    if rs != [] {
      var r := rs[0];
      if |kids| == 1 {
        assert Without(kids, i) == [];
      } else if IsPartial(r) {
        var rest := Without(kids, i);
        assert forall k :: k in rest ==> k in kids;
        AllOfBounds(rest, 0, r.remainder);
        PrefixedWithin(r, AllOfMatch(rest, r.remainder),
          MinLength(kids[i]), MaxLength(kids[i]), SumMin(rest), SumMax(rest));
      }
      AllOfEachBounds(kids, i, rs[1..]);
    }
  }

  /**
   * The length filter of `generate` loses nothing: a word that some complete
   * match spells has between `min_length()` and `max_length()` letters.
   */
  lemma LengthFilterIsExact(c: Constraint, s: string)
    requires s != [] && HasMax(c) && Matches(c, s) != []
    ensures HasMin(c)
    ensures MinLength(c) <= |s| <= MaxLength(c)
  {
    var r := Matches(c, s)[0];
    CompleteMatchSpellsWord(c, s, r);
    MatchBounds(c, s);
  }
}
