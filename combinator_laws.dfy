/**
 * Laws of the combinators, each stated against an independent reading of
 * the constraint: `()` is the union of its children, `?` is a skip followed
 * by a one-child `<>`, `[]` is `<>` over some ordering of all its children,
 * and `{}` is the complete results of `<>` over some ordering of some of its
 * children.
 */
module CombinatorLaws {
  import opened Visie

  lemma InPrefixed(r: Acronym, ms: seq<Acronym>, x: Acronym)
    ensures x in Prefixed(r, ms) <==> exists m :: m in ms && x == Plus(r, m)
  {
    if x in Prefixed(r, ms) {
      var k :| 0 <= k < |Prefixed(r, ms)| && x == Prefixed(r, ms)[k];
      assert ms[k] in ms;
    }
    if m :| m in ms && x == Plus(r, m) {
      var k :| 0 <= k < |ms| && ms[k] == m;
      assert Prefixed(r, ms)[k] == x;
    }
  }

  /** One pass of `OrderedConstraint._match` yields what each first-child result becomes. */
  lemma {:induction false} InOrderedEach(kids: seq<Constraint>, rs: seq<Acronym>, r: Acronym)
    requires kids != []
    ensures r in OrderedEach(kids, rs) <==> exists r0 :: r0 in rs && r in OrderedNext(kids, r0)
  {
    if rs != [] {
      InOrderedEach(kids, rs[1..], r);
      assert OrderedEach(kids, rs) == OrderedNext(kids, rs[0]) + OrderedEach(kids, rs[1..]);
      if r in OrderedNext(kids, rs[0]) {
        assert rs[0] in rs;
      }
      if r0 :| r0 in rs && r in OrderedNext(kids, r0) {
        if r0 != rs[0] {
          assert r0 in rs[1..];
        }
      }
    }
  }

  lemma {:induction false} InAnyOfEach(kids: seq<Constraint>, i: nat, rs: seq<Acronym>, r: Acronym)
    requires i < |kids|
    ensures r in AnyOfEach(kids, i, rs) <==> exists r0 :: r0 in rs && r in AnyOfNext(kids, i, r0)
  {
    if rs != [] {
      InAnyOfEach(kids, i, rs[1..], r);
      assert AnyOfEach(kids, i, rs) == AnyOfNext(kids, i, rs[0]) + AnyOfEach(kids, i, rs[1..]);
      if r in AnyOfNext(kids, i, rs[0]) {
        assert rs[0] in rs;
      }
      if r0 :| r0 in rs && r in AnyOfNext(kids, i, r0) {
        if r0 != rs[0] {
          assert r0 in rs[1..];
        }
      }
    }
  }

  lemma {:induction false} InAllOfEach(kids: seq<Constraint>, i: nat, rs: seq<Acronym>, r: Acronym)
    requires i < |kids|
    ensures r in AllOfEach(kids, i, rs) <==> exists r0 :: r0 in rs && r in AllOfNext(kids, i, r0)
  {
    if rs != [] {
      InAllOfEach(kids, i, rs[1..], r);
      assert AllOfEach(kids, i, rs) == AllOfNext(kids, i, rs[0]) + AllOfEach(kids, i, rs[1..]);
      if r in AllOfNext(kids, i, rs[0]) {
        assert rs[0] in rs;
      }
      if r0 :| r0 in rs && r in AllOfNext(kids, i, r0) {
        if r0 != rs[0] {
          assert r0 in rs[1..];
        }
      }
    }
  }

  lemma {:induction false} InAnyOfFrom(kids: seq<Constraint>, i: nat, s: string, r: Acronym)
    requires i <= |kids| && s != []
    ensures r in AnyOfFrom(kids, i, s) <==>
      exists j, r0 :: i <= j < |kids| && r0 in Match(kids[j], s) && r in AnyOfNext(kids, j, r0)
    decreases |kids| - i
  {
    if i < |kids| {
      InAnyOfEach(kids, i, Match(kids[i], s), r);
      InAnyOfFrom(kids, i + 1, s, r);
    }
  }

  lemma {:induction false} InAllOfFrom(kids: seq<Constraint>, i: nat, s: string, r: Acronym)
    requires i <= |kids| && s != []
    ensures r in AllOfFrom(kids, i, s) <==>
      exists j, r0 :: i <= j < |kids| && r0 in Match(kids[j], s) && r in AllOfNext(kids, j, r0)
    decreases |kids| - i
  {
    if i < |kids| {
      InAllOfEach(kids, i, Match(kids[i], s), r);
      InAllOfFrom(kids, i + 1, s, r);
    }
  }

  /**
   * `<>`: a result runs the first child and, unless it is the only child,
   * continues a partial result of it into the rest; an empty `<>` yields nothing.
   */
  lemma InOrdered(kids: seq<Constraint>, s: string, r: Acronym)
    requires s != []
    ensures r in OrderedMatch(kids, s) <==>
      && kids != []
      && exists r0 :: r0 in Match(kids[0], s) &&
           if |kids| == 1 then r == r0
           else IsPartial(r0) && exists m :: m in OrderedMatch(kids[1..], r0.remainder) && r == Plus(r0, m)
  {
    if kids != [] {
      InOrderedEach(kids, Match(kids[0], s), r);
      forall r0 | r0 in Match(kids[0], s) && |kids| > 1 && IsPartial(r0) {
        InPrefixed(r0, OrderedMatch(kids[1..], r0.remainder), r);
      }
    }
  }

  lemma {:induction false} OrderedEachSingle(x: Constraint, rs: seq<Acronym>)
    ensures OrderedEach([x], rs) == rs
  {
    if rs != [] {
      OrderedEachSingle(x, rs[1..]);
    }
  }

  /** `<x>` yields exactly the results of `x`. */
  lemma OrderedSingle(x: Constraint, s: string)
    requires s != []
    ensures Match(Ordered([x]), s) == Match(x, s)
  {
    OrderedEachSingle(x, Match(x, s));
  }

  /** `x?` yields the skip result first (no items, nothing consumed), then every result of `x`. */
  lemma OptionalSkipsFirst(x: Constraint, s: string)
    requires s != []
    ensures Match(Optional(x), s) == [Acronym([], s)] + Match(x, s)
    ensures Match(Optional(x), s) == [Acronym([], s)] + Match(Ordered([x]), s)
  {
    OrderedSingle(x, s);
  }

  /** `()` over a concatenation of child lists is the concatenation of the two results. */
  lemma {:induction false} ExactlyOneAppend(a: seq<Constraint>, b: seq<Constraint>, s: string)
    requires s != []
    ensures ExactlyOneMatch(a + b, s) == ExactlyOneMatch(a, s) + ExactlyOneMatch(b, s)
  {
    if a == [] {
      assert a + b == b;
    } else {
      assert (a + b)[1..] == a[1..] + b;
      ExactlyOneAppend(a[1..], b, s);
    }
  }

  /** `(a b)` yields the results of `a` and then those of `b`, unmodified. */
  lemma ExactlyOnePair(a: Constraint, b: Constraint, s: string)
    requires s != []
    ensures Match(ExactlyOne([a, b]), s) == Match(a, s) + Match(b, s)
  {
    ExactlyOneAppend([a], [b], s);
    assert [a] + [b] == [a, b];
    assert ExactlyOneMatch([a], s) == Match(a, s) by {
      assert [a][1..] == [];
    }
    assert ExactlyOneMatch([b], s) == Match(b, s) by {
      assert [b][1..] == [];
    }
  }

  /** A result of `()` is a result of one of its children, and every child's result is one of `()`. */
  lemma {:induction false} InExactlyOne(kids: seq<Constraint>, s: string, r: Acronym)
    requires s != []
    ensures r in Match(ExactlyOne(kids), s) <==> exists i :: 0 <= i < |kids| && r in Match(kids[i], s)
  {
    if kids != [] {
      InExactlyOne(kids[1..], s, r);
      if r in Match(kids[0], s) {
        assert r in ExactlyOneMatch(kids, s);
      }
      forall i | 1 <= i < |kids| && r in Match(kids[i], s)
        ensures r in ExactlyOneMatch(kids, s)
      {
        assert kids[1..][i - 1] == kids[i];
      }
    }
  }

  lemma MultisetWithout(kids: seq<Constraint>, i: nat)
    requires i < |kids|
    ensures multiset(Without(kids, i)) == multiset(kids) - multiset{kids[i]}
    ensures multiset(kids) == multiset(Without(kids, i)) + multiset{kids[i]}
  {
    assert kids == kids[..i] + [kids[i]] + kids[i + 1..];
  }

  lemma MultisetTail(p: seq<Constraint>)
    requires p != []
    ensures multiset(p) == multiset{p[0]} + multiset(p[1..])
  {
    assert p == [p[0]] + p[1..];
  }

  lemma IndexOf(kids: seq<Constraint>, x: Constraint) returns (i: nat)
    requires x in multiset(kids)
    ensures i < |kids| && kids[i] == x
  {
    assert x in kids;
    var k :| 0 <= k < |kids| && kids[k] == x;
    i := k;
  }

  /**
   * `[]` uses every child exactly once: its results are exactly the results
   * of `<>` over some ordering of all its children, so only the last child
   * used may leave the word consumed and every other one leaves letters over.
   */
  lemma AllOfIsSomeOrdering(kids: seq<Constraint>, s: string, r: Acronym)
    requires s != []
    ensures r in Match(AllOf(kids), s) <==>
      exists p :: multiset(p) == multiset(kids) && r in OrderedMatch(p, s)
  {
    if r in AllOfMatch(kids, s) {
      var p := AllOfToOrdering(kids, s, r);
    }
    if p :| multiset(p) == multiset(kids) && r in OrderedMatch(p, s) {
      OrderingToAllOf(kids, s, r, p);
    }
  }

  /** Extending a partial result of `x` by a result of `<p>` on what it left gives a result of `<x p>`. */
  lemma OrderedCons(x: Constraint, p: seq<Constraint>, s: string, r0: Acronym, m: Acronym)
    requires s != [] && p != [] && r0 in Match(x, s) && IsPartial(r0)
    requires m in OrderedMatch(p, r0.remainder)
    ensures Plus(r0, m) in OrderedMatch([x] + p, s)
  {
    var q := [x] + p;
    assert q[0] == x && q[1..] == p;
    InPrefixed(r0, OrderedMatch(p, r0.remainder), Plus(r0, m));
    InOrdered(q, s, Plus(r0, m));
  }

  /** A result of `<p>` over two or more children splits into a partial first-child result and a rest. */
  lemma OrderedUncons(p: seq<Constraint>, s: string, r: Acronym) returns (r0: Acronym, m: Acronym)
    requires s != [] && |p| > 1 && r in OrderedMatch(p, s)
    ensures r0 in Match(p[0], s) && IsPartial(r0)
    ensures m in OrderedMatch(p[1..], r0.remainder) && r == Plus(r0, m)
  {
    InOrdered(p, s, r);
    r0 :| r0 in Match(p[0], s) && IsPartial(r0) &&
      exists m :: m in OrderedMatch(p[1..], r0.remainder) && r == Plus(r0, m);
    m :| m in OrderedMatch(p[1..], r0.remainder) && r == Plus(r0, m);
  }

  lemma OrderedOne(x: Constraint, s: string, r: Acronym)
    requires s != []
    ensures r in OrderedMatch([x], s) <==> r in Match(x, s)
  {
    OrderedSingle(x, s);
  }

  /** A continuation step of `[]` or `{}` names the rest's result it extended. */
  lemma NextUncons(r0: Acronym, ms: seq<Acronym>, r: Acronym) returns (m: Acronym)
    requires r in Prefixed(r0, ms)
    ensures m in ms && r == Plus(r0, m)
  {
    InPrefixed(r0, ms, r);
    m :| m in ms && r == Plus(r0, m);
  }

  lemma {:induction false} AllOfToOrdering(kids: seq<Constraint>, s: string, r: Acronym) returns (p: seq<Constraint>)
    requires s != [] && r in AllOfMatch(kids, s)
    ensures multiset(p) == multiset(kids) && r in OrderedMatch(p, s)
    decreases |kids|
  {
    InAllOfFrom(kids, 0, s, r);
    var i, r0 :| 0 <= i < |kids| && r0 in Match(kids[i], s) && r in AllOfNext(kids, i, r0);
    if |kids| == 1 {
      OrderedOne(kids[0], s, r);
      p := kids;
      assert p == [kids[0]];
    } else {
      var rest := Without(kids, i);
      assert IsPartial(r0);
      assert AllOfNext(kids, i, r0) == Prefixed(r0, AllOfMatch(rest, r0.remainder));
      var m := NextUncons(r0, AllOfMatch(rest, r0.remainder), r);
      var p' := AllOfToOrdering(rest, r0.remainder, m);
      assert p' != [] by { assert |multiset(p')| == |multiset(rest)|; }
      OrderedCons(kids[i], p', s, r0, m);
      MultisetWithout(kids, i);
      p := [kids[i]] + p';
    }
  }

  lemma {:induction false} OrderingToAllOf(kids: seq<Constraint>, s: string, r: Acronym, p: seq<Constraint>)
    requires s != [] && multiset(p) == multiset(kids) && r in OrderedMatch(p, s)
    ensures r in AllOfMatch(kids, s)
    decreases |kids|
  {
    assert p != [];
    assert |p| == |kids| by { assert |multiset(p)| == |multiset(kids)|; }
    var i := IndexOf(kids, p[0]);
    if |p| == 1 {
      assert p == [p[0]];
      OrderedOne(p[0], s, r);
      assert r in AllOfNext(kids, i, r);
      InAllOfFrom(kids, 0, s, r);
    } else {
      var r0, m := OrderedUncons(p, s, r);
      var rest := Without(kids, i);
      MultisetWithout(kids, i);
      MultisetTail(p);
      OrderingToAllOf(rest, r0.remainder, m, p[1..]);
      InPrefixed(r0, AllOfMatch(rest, r0.remainder), r);
      assert r in AllOfNext(kids, i, r0);
      InAllOfFrom(kids, 0, s, r);
    }
  }

  /**
   * `{}` uses each child at most once and yields only complete results: its
   * results are exactly the complete results of `<>` over some ordering of a
   * non-empty selection of its children.
   */
  lemma AnyOfIsSomeSelection(kids: seq<Constraint>, s: string, r: Acronym)
    requires s != []
    ensures r in Match(AnyOf(kids), s) <==>
      IsComplete(r) && exists p :: p != [] && multiset(p) <= multiset(kids) && r in OrderedMatch(p, s)
  {
    if r in AnyOfMatch(kids, s) {
      var p := AnyOfToSelection(kids, s, r);
    }
    if p :| IsComplete(r) && p != [] && multiset(p) <= multiset(kids) && r in OrderedMatch(p, s) {
      SelectionToAnyOf(kids, s, r, p);
    }
  }

  lemma {:induction false} AnyOfToSelection(kids: seq<Constraint>, s: string, r: Acronym) returns (p: seq<Constraint>)
    requires s != [] && r in AnyOfMatch(kids, s)
    ensures IsComplete(r)
    ensures p != [] && multiset(p) <= multiset(kids) && r in OrderedMatch(p, s)
    decreases |kids|
  {
    InAnyOfFrom(kids, 0, s, r);
    var i, r0 :| 0 <= i < |kids| && r0 in Match(kids[i], s) && r in AnyOfNext(kids, i, r0);
    if IsComplete(r0) {
      OrderedOne(kids[i], s, r);
      p := [kids[i]];
      assert kids[i] in multiset(kids);
    } else {
      var rest := Without(kids, i);
      assert AnyOfNext(kids, i, r0) == Prefixed(r0, AnyOfMatch(rest, r0.remainder));
      var m := NextUncons(r0, AnyOfMatch(rest, r0.remainder), r);
      var p' := AnyOfToSelection(rest, r0.remainder, m);
      OrderedCons(kids[i], p', s, r0, m);
      MultisetWithout(kids, i);
      p := [kids[i]] + p';
    }
  }

  lemma {:induction false} SelectionToAnyOf(kids: seq<Constraint>, s: string, r: Acronym, p: seq<Constraint>)
    requires s != [] && IsComplete(r) && p != [] && multiset(p) <= multiset(kids) && r in OrderedMatch(p, s)
    ensures r in AnyOfMatch(kids, s)
    decreases |kids|
  {
    var i := IndexOf(kids, p[0]);
    if |p| == 1 {
      assert p == [p[0]];
      OrderedOne(p[0], s, r);
      assert r in AnyOfNext(kids, i, r);
      InAnyOfFrom(kids, 0, s, r);
    } else {
      var r0, m := OrderedUncons(p, s, r);
      var rest := Without(kids, i);
      MultisetWithout(kids, i);
      MultisetTail(p);
      assert IsComplete(m);
      SelectionToAnyOf(rest, r0.remainder, m, p[1..]);
      InPrefixed(r0, AnyOfMatch(rest, r0.remainder), r);
      assert r in AnyOfNext(kids, i, r0);
      InAnyOfFrom(kids, 0, s, r);
    }
  }

  /** A non-final child of `<>` that consumes the whole word ends that branch: `<a b?>` never matches "a". */
  lemma CompleteNonFinalChildIsDropped()
    ensures Matches(Ordered([Word("a"), Optional(Word("b"))]), "a") == []
  {
    var kids := [Word("a"), Optional(Word("b"))];
    assert "a"[1..] == [];
    assert Match(Word("a"), "a") == [Acronym(["a"], [])];
    assert OrderedNext(kids, Acronym(["a"], [])) == [];
    assert OrderedEach(kids, [Acronym(["a"], [])]) == [];
  }

  /** Whatever a constraint yields on the empty word names nothing and leaves nothing over. */
  lemma {:induction false} EmptyRunResults(c: Constraint)
    ensures forall r :: r in MatchEmpty(c).results ==> r == Acronym([], [])
    decreases c, 1
  {
    match c
    case Word(_) =>
    case Wildcard =>
    case AnyOf(kids) => EmptyEachResults(kids);
    case ExactlyOne(kids) => EmptyEachResults(kids);
    case Ordered(kids) =>
      if |kids| == 1 {
        EmptyRunResults(kids[0]);
      }
    case AllOf(kids) =>
      if |kids| == 1 {
        EmptyRunResults(kids[0]);
      }
    case Optional(x) => EmptyRunResults(x);
  }

  lemma {:induction false} EmptyEachResults(kids: seq<Constraint>)
    ensures forall r :: r in EmptyEach(kids).results ==> r == Acronym([], [])
    decreases kids, 0
  {
    if kids != [] {
      EmptyRunResults(kids[0]);
      EmptyEachResults(kids[1..]);
    }
  }
}
