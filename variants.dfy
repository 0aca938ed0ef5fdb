/**
 * The spelling-variant expander: `unique_everseen` (order-preserving
 * de-duplication) and `generate_variants`, which splits a word into one- and
 * two-letter pieces, replaces each piece by its listed alternatives and
 * spells every combination.
 */
module Variants {
  import opened Text

  /** `VARIATION_MAPPING`: a piece of a word and the spellings it is replaced by. */
  const VariationMapping: map<string, seq<string>> := map[
    "c" := ["k"],
    "k" := ["c"],
    "i" := ["ee", "ii", "y"],
    "ee" := ["i", "ii", "y"],
    "oo" := ["u"],
    "a" := ["u", "o"],
    "o" := ["u", "a"],
    "u" := ["a", "o", "oo"],
    "j" := ["g", "gg"],
    "g" := ["gg"],
    "h" := ["kh"],
    "kh" := ["h", "ch"],
    "y" := ["ee", "i", "ii"],
    "sh" := ["xi"],
    "xi" := ["sh"],
    "w" := ["ui"],
    "ui" := ["w"]
  ]

  /** The pieces the mapping lists. */
  lemma MappingKeys()
    ensures VariationMapping.Keys ==
      {"c", "k", "i", "ee", "oo", "a", "o", "u", "j", "g", "h", "kh", "y", "sh", "xi", "w", "ui"}
  {
  }

  /** Every key is one or two letters long and has at least one replacement, so no key ends in a blank. */
  lemma MappingShape()
    ensures forall k :: k in VariationMapping ==> 1 <= |k| <= 2 && ' ' !in k && VariationMapping[k] != []
  {
    MappingKeys();
  }

  /** The last letter, paired with the blank that follows it, is never a key. */
  lemma NoKeyEndsInBlank(c: char)
    ensures [c, ' '] !in VariationMapping
  {
    MappingShape();
    assert ' ' in [c, ' '];
  }

  // ---------------------------------------------------------------------
  // unique_everseen
  // ---------------------------------------------------------------------

  function Identity<T>(x: T): T { x }

  /** The keys of the elements of `xs`. */
  function KeysOf<T, K>(xs: seq<T>, key: T -> K): set<K>
  {
    set i | 0 <= i < |xs| :: key(xs[i])
  }

  /**
   * What `unique_everseen` yields after the keys in `seen` have been seen:
   * each element whose key has not been seen yet, remembering its key.
   */
  function DedupBy<T, K>(xs: seq<T>, key: T -> K, seen: set<K>): seq<T>
  {
    if xs == [] then []
    else if key(xs[0]) in seen then DedupBy(xs[1..], key, seen)
    else [xs[0]] + DedupBy(xs[1..], key, seen + {key(xs[0])})
  }

  /** `unique_everseen(xs)` with no key: the element is its own key. */
  function Dedup<T(==)>(xs: seq<T>): seq<T>
  {
    DedupBy(xs, Identity, {})
  }

  /** `unique_everseen(iterable)`: the `filterfalse(seen.__contains__, ...)` loop. */
  method UniqueEverseen<T(==)>(xs: seq<T>) returns (out: seq<T>)
    ensures out == Dedup(xs)
  {
    var seen: set<T> := {};
    out := [];
    for i := 0 to |xs|
      invariant out + DedupBy(xs[i..], Identity, seen) == Dedup(xs)
    {
      assert xs[i..][1..] == xs[i + 1..];
      if xs[i] !in seen {
        seen := seen + {xs[i]};
        out := out + [xs[i]];
      }
    }
    assert xs[|xs|..] == [];
  }

  /** `unique_everseen(iterable, key)`: the loop that remembers keys instead of elements. */
  method UniqueEverseenBy<T, K(==)>(xs: seq<T>, key: T -> K) returns (out: seq<T>)
    ensures out == DedupBy(xs, key, {})
  {
    var seen: set<K> := {};
    out := [];
    for i := 0 to |xs|
      invariant out + DedupBy(xs[i..], key, seen) == DedupBy(xs, key, {})
    {
      assert xs[i..][1..] == xs[i + 1..];
      var k := key(xs[i]);
      if k !in seen {
        seen := seen + {k};
        out := out + [xs[i]];
      }
    }
    assert xs[|xs|..] == [];
  }

  /** No two elements of `out` share a key, and none has a key in `seen`. */
  predicate FreshDistinctKeys<T, K>(out: seq<T>, key: T -> K, seen: set<K>)
  {
    && (forall a :: 0 <= a < |out| ==> key(out[a]) !in seen)
    && (forall a, b :: 0 <= a < b < |out| ==> key(out[a]) != key(out[b]))
  }

  /** No two yielded elements share a key, and none has a key seen before the call. */
  lemma {:induction false} DedupKeysDistinct<T, K>(xs: seq<T>, key: T -> K, seen: set<K>)
    ensures FreshDistinctKeys(DedupBy(xs, key, seen), key, seen)
  {
    if xs != [] {
      if key(xs[0]) in seen {
        DedupKeysDistinct(xs[1..], key, seen);
        assert DedupBy(xs, key, seen) == DedupBy(xs[1..], key, seen);
      } else {
        var seen' := seen + {key(xs[0])};
        DedupKeysDistinct(xs[1..], key, seen');
        var tail := DedupBy(xs[1..], key, seen');
        var out := [xs[0]] + tail;
        assert DedupBy(xs, key, seen) == out;
        forall a | 0 <= a < |out|
          ensures key(out[a]) !in seen
        {
          if a > 0 {
            assert out[a] == tail[a - 1];
          }
        }
        forall a, b | 0 <= a < b < |out|
          ensures key(out[a]) != key(out[b])
        {
          assert out[b] == tail[b - 1];
          if a > 0 {
            assert out[a] == tail[a - 1];
          }
        }
      }
    }
  }

  /** Every yielded element comes from the input, and every unseen key of the input is yielded. */
  lemma {:induction false} DedupCovers<T, K>(xs: seq<T>, key: T -> K, seen: set<K>)
    ensures var out := DedupBy(xs, key, seen);
      && (forall y :: y in out ==> y in xs)
      && KeysOf(out, key) == KeysOf(xs, key) - seen
  {
    if xs != [] {
      var rest := xs[1..];
      var out := DedupBy(xs, key, seen);
      assert forall y :: y in rest ==> y in xs;
      assert KeysOf(xs, key) == {key(xs[0])} + KeysOf(rest, key) by {
        forall k | k in KeysOf(xs, key) ensures k in {key(xs[0])} + KeysOf(rest, key) {
          var i :| 0 <= i < |xs| && k == key(xs[i]);
          if i > 0 {
            assert k == key(rest[i - 1]);
          }
        }
      }
      if key(xs[0]) in seen {
        DedupCovers(rest, key, seen);
      } else {
        var tail := DedupBy(rest, key, seen + {key(xs[0])});
        DedupCovers(rest, key, seen + {key(xs[0])});
        assert out == [xs[0]] + tail;
        assert KeysOf(out, key) == {key(xs[0])} + KeysOf(tail, key) by {
          forall k | k in KeysOf(out, key) ensures k in {key(xs[0])} + KeysOf(tail, key) {
            var i :| 0 <= i < |out| && k == key(out[i]);
            if i > 0 {
              assert k == key(tail[i - 1]);
            }
          }
          forall k | k in {key(xs[0])} + KeysOf(tail, key) ensures k in KeysOf(out, key) {
            if k == key(xs[0]) {
              assert k == key(out[0]);
            } else {
              var i :| 0 <= i < |tail| && k == key(tail[i]);
              assert k == key(out[i + 1]);
            }
          }
        }
        forall y | y in out ensures y in xs {
          if y != xs[0] {
            assert y in tail;
          }
        }
      }
    }
  }

  /** Without a key, an element is yielded iff it occurs in the input and was not seen before. */
  lemma {:induction false} InDedup<T>(xs: seq<T>, seen: set<T>, x: T)
    ensures x in DedupBy(xs, Identity, seen) <==> x in xs && x !in seen
  {
    if xs != [] {
      var seen' := if xs[0] in seen then seen else seen + {xs[0]};
      InDedup(xs[1..], seen', x);
      assert x in xs <==> x == xs[0] || x in xs[1..];
    }
  }

  /**
   * The elements that are the first of their key, in input order: an
   * independent reading of "remember all elements ever seen" that looks back
   * over the input instead of keeping a set.
   */
  function FirstOccurrences<T, K(==)>(xs: seq<T>, key: T -> K): seq<T>
  {
    if xs == [] then []
    else
      var init := xs[..|xs| - 1];
      FirstOccurrences(init, key) + (if key(xs[|xs| - 1]) in KeysOf(init, key) then [] else [xs[|xs| - 1]])
  }

  lemma {:induction false} DedupSnoc<T, K>(xs: seq<T>, x: T, key: T -> K, seen: set<K>)
    ensures DedupBy(xs + [x], key, seen) ==
      DedupBy(xs, key, seen) + (if key(x) in seen + KeysOf(xs, key) then [] else [x])
  {
    if xs == [] {
      assert [] + [x] == [x];
      assert KeysOf(xs, key) == {};
    } else {
      assert (xs + [x])[0] == xs[0];
      assert (xs + [x])[1..] == xs[1..] + [x];
      var s' := if key(xs[0]) in seen then seen else seen + {key(xs[0])};
      DedupSnoc(xs[1..], x, key, s');
      assert seen + KeysOf(xs, key) == s' + KeysOf(xs[1..], key) by {
        forall k | k in KeysOf(xs, key) ensures k in s' + KeysOf(xs[1..], key) {
          var i :| 0 <= i < |xs| && k == key(xs[i]);
          if i > 0 {
            assert k == key(xs[1..][i - 1]);
          }
        }
        forall k | k in KeysOf(xs[1..], key) ensures k in KeysOf(xs, key) {
          var i :| 0 <= i < |xs[1..]| && k == key(xs[1..][i]);
          assert k == key(xs[i + 1]);
        }
      }
    }
  }

  /** `unique_everseen` keeps exactly the first occurrence of each key, in input order. */
  lemma {:induction false} DedupIsFirstOccurrences<T, K>(xs: seq<T>, key: T -> K)
    ensures DedupBy(xs, key, {}) == FirstOccurrences(xs, key)
    decreases |xs|
  {
    if xs != [] {
      var init := xs[..|xs| - 1];
      assert xs == init + [xs[|xs| - 1]];
      DedupIsFirstOccurrences(init, key);
      DedupSnoc(init, xs[|xs| - 1], key, {});
    }
  }

  // ---------------------------------------------------------------------
  // itertools.product and ''.join
  // ---------------------------------------------------------------------

  /** The concatenation of the chosen pieces: `''.join(choice)`. */
  function Join(p: seq<string>): (s: string)
  {
    if p == [] then [] else p[0] + Join(p[1..])
  }

  /** `p` picks one entry from each factor. */
  predicate Picks(fs: seq<seq<string>>, p: seq<string>)
  {
    |p| == |fs| && forall j :: 0 <= j < |p| ==> p[j] in fs[j]
  }

  /**
   * `map(''.join, itertools.product(*fs))`: every pick, joined, with the
   * first factor varying slowest.
   */
  function Combos(fs: seq<seq<string>>): seq<string>
  {
    if fs == [] then [""] else CombosWith(fs[0], Combos(fs[1..]))
  }

  /** Each entry of `xs`, in order, put in front of every string of `rest`. */
  function CombosWith(xs: seq<string>, rest: seq<string>): seq<string>
  {
    if xs == [] then []
    else seq(|rest|, j requires 0 <= j < |rest| => xs[0] + rest[j]) + CombosWith(xs[1..], rest)
  }

  function ProductOfSizes(fs: seq<seq<string>>): nat
  {
    if fs == [] then 1 else |fs[0]| * ProductOfSizes(fs[1..])
  }

  lemma {:induction false} CombosWithSize(xs: seq<string>, rest: seq<string>)
    ensures |CombosWith(xs, rest)| == |xs| * |rest|
  {
    if xs != [] {
      CombosWithSize(xs[1..], rest);
    }
  }

  /** The product has one combination per pick: the product of the factors' sizes. */
  lemma {:induction false} CombosSize(fs: seq<seq<string>>)
    ensures |Combos(fs)| == ProductOfSizes(fs)
  {
    if fs != [] {
      CombosSize(fs[1..]);
      CombosWithSize(fs[0], Combos(fs[1..]));
    }
  }

  lemma {:induction false} InCombosWith(xs: seq<string>, rest: seq<string>, s: string)
    ensures s in CombosWith(xs, rest) <==> exists x, t :: x in xs && t in rest && s == x + t
  {
    if xs != [] {
      InCombosWith(xs[1..], rest, s);
      var front := seq(|rest|, j requires 0 <= j < |rest| => xs[0] + rest[j]);
      assert CombosWith(xs, rest) == front + CombosWith(xs[1..], rest);
      if s in front {
        var j :| 0 <= j < |front| && front[j] == s;
        assert xs[0] in xs && rest[j] in rest;
      }
      if x, t :| x in xs && t in rest && s == x + t {
        if x == xs[0] {
          var j :| 0 <= j < |rest| && rest[j] == t;
          assert front[j] == s;
        } else {
          assert x in xs[1..];
        }
      }
    }
  }

  /** A string is a combination of the product iff it joins one pick from each factor. */
  lemma InCombos(fs: seq<seq<string>>, s: string)
    ensures s in Combos(fs) <==> exists p :: Picks(fs, p) && s == Join(p)
  {
    if s in Combos(fs) {
      var p := CombosPick(fs, s);
    }
    if p :| Picks(fs, p) && s == Join(p) {
      PickInCombos(fs, p);
    }
  }

  lemma {:induction false} CombosPick(fs: seq<seq<string>>, s: string) returns (p: seq<string>)
    requires s in Combos(fs)
    ensures Picks(fs, p) && s == Join(p)
  {
    if fs == [] {
      p := [];
    } else {
      InCombosWith(fs[0], Combos(fs[1..]), s);
      var x, t :| x in fs[0] && t in Combos(fs[1..]) && s == x + t;
      var p' := CombosPick(fs[1..], t);
      p := [x] + p';
      assert p[1..] == p';
    }
  }

  lemma {:induction false} PickInCombos(fs: seq<seq<string>>, p: seq<string>)
    requires Picks(fs, p)
    ensures Join(p) in Combos(fs)
  {
    if fs != [] {
      assert Picks(fs[1..], p[1..]);
      PickInCombos(fs[1..], p[1..]);
      assert p[0] in fs[0];
      InCombosWith(fs[0], Combos(fs[1..]), Join(p));
    }
  }

  // ---------------------------------------------------------------------
  // generate_variants
  // ---------------------------------------------------------------------

  /**
   * The pieces the scan of `generate_variants` splits `w[i..]` into: the
   * letter and the one after it (a blank after the last letter) when that
   * pair is a key, otherwise the letter alone.
   */
  function PiecesFrom(w: string, i: nat): (ps: seq<string>)
    requires i <= |w|
    ensures forall j :: 0 <= j < |ps| ==> 1 <= |ps[j]| <= 2
    ensures i < |w| ==> ps != [] && ps[0][0] == w[i]
    decreases |w| - i
  {
    if i == |w| then []
    else
      var next := if i + 1 < |w| then w[i + 1] else ' ';
      if [w[i], next] in VariationMapping then
        NoKeyEndsInBlank(w[i]);
        [[w[i], w[i + 1]]] + PiecesFrom(w, i + 2)
      else
        [[w[i]]] + PiecesFrom(w, i + 1)
  }

  /** What one piece contributes: its listed replacements if it is a key, else itself. */
  function Replacements(piece: string): seq<string>
  {
    if piece in VariationMapping then VariationMapping[piece] else [piece]
  }

  function FactorsOf(ps: seq<string>): (fs: seq<seq<string>>)
    ensures |fs| == |ps|
  {
    seq(|ps|, j requires 0 <= j < |ps| => Replacements(ps[j]))
  }

  /** The letters of `w`, each as a one-letter string: iterating over the word itself. */
  function Letters(w: string): seq<string>
  {
    seq(|w|, i requires 0 <= i < |w| => [w[i]])
  }

  /** The product factors: the word's own letters, then one factor per piece. */
  function Variations(w: string): seq<seq<string>>
  {
    [Letters(w)] + FactorsOf(PiecesFrom(w, 0))
  }

  /** The result of `generate_variants(word)`. */
  function Variants(word: string): seq<string>
  {
    var w := LowerString(Strip(word));
    if w == [] then [] else Dedup(Combos(Variations(w)))
  }

  lemma FactorsOfCons(p: string, ps: seq<string>)
    ensures FactorsOf([p] + ps) == [Replacements(p)] + FactorsOf(ps)
  {
    assert forall j :: 0 < j <= |ps| ==> ([p] + ps)[j] == ps[j - 1];
  }

  /** The scan at a letter whose pair with the next character is a key: one factor, two letters. */
  lemma PairStep(w: string, k: nat)
    requires k < |w| && [w[k], if k + 1 < |w| then w[k + 1] else ' '] in VariationMapping
    ensures k + 1 < |w|
    ensures FactorsOf(PiecesFrom(w, k)) == [VariationMapping[[w[k], w[k + 1]]]] + FactorsOf(PiecesFrom(w, k + 2))
  {
    NoKeyEndsInBlank(w[k]);
    FactorsOfCons([w[k], w[k + 1]], PiecesFrom(w, k + 2));
  }

  /** The scan at any other letter: one factor, one letter. */
  lemma SingleStep(w: string, k: nat)
    requires k < |w| && [w[k], if k + 1 < |w| then w[k + 1] else ' '] !in VariationMapping
    ensures FactorsOf(PiecesFrom(w, k)) == [Replacements([w[k]])] + FactorsOf(PiecesFrom(w, k + 1))
  {
    FactorsOfCons([w[k]], PiecesFrom(w, k + 1));
  }

  /** `generate_variants(word)`: the scan with the `skip` flag, then the product and de-duplication. */
  method GenerateVariants(word: string) returns (vs: seq<string>)
    ensures vs == Variants(word)
  {
    var w := LowerString(Strip(word));
    if w == [] {
      return [];
    }
    var variations := ScanVariations(w);
    var combos := Combos(variations);
    vs := UniqueEverseen(combos);
  }

  /** The loop of `generate_variants` that builds the list of product factors. */
  method ScanVariations(w: string) returns (variations: seq<seq<string>>)
    ensures variations == Variations(w)
  {
    variations := [Letters(w)];
    var skip := false;
    for k := 0 to |w|
      invariant skip ==> k < |w|
      invariant variations + FactorsOf(PiecesFrom(w, if skip then k + 1 else k)) == Variations(w)
    {
      var c := w[k];
      var next := if k + 1 < |w| then w[k + 1] else ' ';
      if skip {
        skip := false;
        continue;
      }
      skip := false;
      if [c, next] in VariationMapping {
        PairStep(w, k);
        assert variations + [VariationMapping[[c, next]]] + FactorsOf(PiecesFrom(w, k + 2)) == Variations(w);
        variations := variations + [VariationMapping[[c, next]]];
        skip := true;
      } else {
        SingleStep(w, k);
        assert variations + [Replacements([c])] + FactorsOf(PiecesFrom(w, k + 1)) == Variations(w);
        if [c] in VariationMapping {
          variations := variations + [VariationMapping[[c]]];
        } else {
          variations := variations + [[[c]]];
        }
      }
    }
    assert FactorsOf(PiecesFrom(w, |w|)) == [];
  }

  /** Blank input (after stripping) has no variants. */
  lemma BlankHasNoVariants(word: string)
    requires LowerString(Strip(word)) == []
    ensures Variants(word) == []
  {
  }

  lemma {:induction false} JoinPieces(w: string, i: nat)
    requires i <= |w|
    ensures Join(PiecesFrom(w, i)) == w[i..]
    decreases |w| - i
  {
    if i < |w| {
      var next := if i + 1 < |w| then w[i + 1] else ' ';
      if [w[i], next] in VariationMapping {
        NoKeyEndsInBlank(w[i]);
        JoinPieces(w, i + 2);
        assert w[i..] == [w[i], w[i + 1]] + w[i + 2..];
      } else {
        JoinPieces(w, i + 1);
        assert w[i..] == [w[i]] + w[i + 1..];
      }
    }
  }

  /** The pieces spell the lower-cased word, left to right, each one or two letters long. */
  lemma PiecesSpellWord(w: string)
    ensures Join(PiecesFrom(w, 0)) == w
  {
    JoinPieces(w, 0);
  }

  /**
   * The two-letter key is tried first: every two-letter piece is a key, and
   * a one-letter piece and the first letter of the next piece never form one.
   */
  predicate Greedy(ps: seq<string>)
  {
    && (forall j :: 0 <= j < |ps| && |ps[j]| == 2 ==> ps[j] in VariationMapping)
    && (forall j :: 0 <= j < |ps| - 1 && |ps[j]| == 1 && ps[j + 1] != [] ==>
          ps[j] + [ps[j + 1][0]] !in VariationMapping)
  }

  lemma {:induction false} PiecesAreGreedy(w: string, i: nat)
    requires i <= |w|
    ensures Greedy(PiecesFrom(w, i))
    decreases |w| - i
  {
    if i < |w| {
      var ps := PiecesFrom(w, i);
      var next := if i + 1 < |w| then w[i + 1] else ' ';
      if [w[i], next] in VariationMapping {
        NoKeyEndsInBlank(w[i]);
        PiecesAreGreedy(w, i + 2);
        assert ps == [[w[i], w[i + 1]]] + PiecesFrom(w, i + 2);
        assert forall j :: 0 < j < |ps| ==> ps[j] == PiecesFrom(w, i + 2)[j - 1];
      } else {
        PiecesAreGreedy(w, i + 1);
        assert ps == [[w[i]]] + PiecesFrom(w, i + 1);
        assert forall j :: 0 < j < |ps| ==> ps[j] == PiecesFrom(w, i + 1)[j - 1];
        if |ps| > 1 {
          assert ps[0] + [ps[1][0]] == [w[i], next];
        }
      }
    }
  }

  /**
   * `v` spells one letter of `w` followed by one replacement for each
   * piece of `w`.
   */
  ghost predicate SpellsVariant(w: string, v: string)
  {
    exists i, p :: 0 <= i < |w| && Picks(FactorsOf(PiecesFrom(w, 0)), p) && v == [w[i]] + Join(p)
  }

  /** A string is a variant iff it spells a variant of the stripped, lower-cased word. */
  lemma InVariants(word: string, v: string)
    ensures v in Variants(word) <==> SpellsVariant(LowerString(Strip(word)), v)
  {
    var w := LowerString(Strip(word));
    if w != [] {
      InDedup(Combos(Variations(w)), {}, v);
      InCombosOfWord(w, v);
    }
  }

  lemma InCombosOfWord(w: string, v: string)
    ensures v in Combos(Variations(w)) <==> SpellsVariant(w, v)
  {
    var fs := Variations(w);
    var rest := FactorsOf(PiecesFrom(w, 0));
    assert fs == [Letters(w)] + rest;
    if v in Combos(fs) {
      var p := CombosPick(fs, v);
      var i :| 0 <= i < |w| && p[0] == [w[i]];
      assert Picks(rest, p[1..]);
      assert p == [p[0]] + p[1..];
      assert v == [w[i]] + Join(p[1..]);
    }
    if i, p :| 0 <= i < |w| && Picks(rest, p) && v == [w[i]] + Join(p) {
      var q := [[w[i]]] + p;
      assert q[1..] == p;
      assert q[0] == Letters(w)[i] && q[0] in fs[0];
      assert Picks(fs, q);
      PickInCombos(fs, q);
    }
  }

  predicate Distinct(vs: seq<string>)
  {
    forall a, b :: 0 <= a < b < |vs| ==> vs[a] != vs[b]
  }

  /** Each variant is listed once. */
  lemma VariantsDistinct(word: string)
    ensures Distinct(Variants(word))
  {
    var w := LowerString(Strip(word));
    if w != [] {
      DedupKeysDistinct(Combos(Variations(w)), Identity, {});
    }
  }
}
