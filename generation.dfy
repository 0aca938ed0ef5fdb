/**
 * `generate`: try every dictionary word (or every variant of every word)
 * whose length fits the constraint, skip words whose acronym name has
 * already been produced, and produce the complete matches of the rest.
 *
 * The dictionary file is a parameter here: `lines` are its lines, in order.
 */
module Generation {
  import opened Text
  import opened Visie
  import opened VisieLemmas
  import opened CombinatorLaws
  import opened Variants

  /** The words tried for one line of the dictionary: the stripped line, or its variants. */
  function WordsOf(line: string, useVariants: bool): seq<string>
  {
    if useVariants then Variants.Variants(Strip(line)) else [Strip(line)]
  }

  /** The words `generate` tries, in order. */
  function Candidates(lines: seq<string>, useVariants: bool): seq<string>
  {
    if lines == [] then [] else WordsOf(lines[0], useVariants) + Candidates(lines[1..], useVariants)
  }

  /**
   * `constraints.matches(word)`: the complete results, and whether the
   * generator raised. A non-empty word never raises; on the empty word the
   * leaves index `word[0]`.
   */
  function MatchRun(c: Constraint, word: string): Run
  {
    if word == [] then Run(CompleteOnly(MatchEmpty(c).results), MatchEmpty(c).raised)
    else Run(Matches(c, word), false)
  }

  /** Every result for a word is complete, has one item per letter and is named by the upper-cased word. */
  lemma MatchRunSpellsWord(c: Constraint, word: string)
    ensures forall r :: r in MatchRun(c, word).results ==>
      IsComplete(r) && |r.items| == |word| && Name(r) == UpperString(word)
  {
    if word == [] {
      EmptyRunResults(c);
    } else {
      forall r | r in Matches(c, word)
        ensures |r.items| == |word| && Name(r) == UpperString(word)
      {
        CompleteMatchSpellsWord(c, word, r);
      }
    }
  }

  function NamesOf(rs: seq<Acronym>): set<string>
  {
    set r | r in rs :: Name(r)
  }

  /** The word is skipped: its name was produced already, or its length is out of range. */
  predicate Skipped(word: string, lo: int, hi: nat, yielded: set<string>)
  {
    UpperString(word) in yielded || |word| < lo || |word| > hi
  }

  /**
   * The loop of `generate` over `words`, once the names in `yielded` have
   * been produced: what it produces, and whether it stopped by raising.
   */
  function Enumerate(c: Constraint, words: seq<string>, lo: int, hi: nat, yielded: set<string>): Run
    decreases |words|
  {
    if words == [] then Run([], false)
    else if Skipped(words[0], lo, hi, yielded) then Enumerate(c, words[1..], lo, hi, yielded)
    else
      var m := MatchRun(c, words[0]);
      Then(m, Enumerate(c, words[1..], lo, hi, yielded + NamesOf(m.results)))
  }

  /** `max(constraints.min_length(), min_length)`. */
  function Shortest(c: Constraint, minLength: int): int
    requires HasMin(c)
  {
    if MinLength(c) >= minLength then MinLength(c) else minLength
  }

  /**
   * `generate(constraints, min_length, use_variants)` over the dictionary
   * `lines`. A tree with an empty `()` makes `min_length()` or
   * `max_length()` raise before anything is produced.
   */
  function Generated(c: Constraint, lines: seq<string>, minLength: int := 3, useVariants: bool := false): Run
  {
    if !HasMax(c) then Run([], true)
    else
      HasMaxHasMin(c);
      Enumerate(c, Candidates(lines, useVariants), Shortest(c, minLength), MaxLength(c), {})
  }

  /** `generate`, with the loops over the dictionary lines, their words and each word's matches. */
  method Generate(c: Constraint, lines: seq<string>, minLength: int := 3, useVariants: bool := false) returns (out: Run)
    ensures out == Generated(c, lines, minLength, useVariants)
  {
    if !HasMax(c) {
      return Run([], true);
    }
    HasMaxHasMin(c);
    var lo := Shortest(c, minLength);
    var hi := MaxLength(c);
    ghost var all := Enumerate(c, Candidates(lines, useVariants), lo, hi, {});
    assert all == Generated(c, lines, minLength, useVariants);
    assert [] + all.results == all.results && lines[0..] == lines;
    var yielded: set<string> := {};
    var results: seq<Acronym> := [];
    for i := 0 to |lines|
      invariant Then(Run(results, false), Enumerate(c, Candidates(lines[i..], useVariants), lo, hi, yielded)) == all
    {
      var word := Strip(lines[i]);
      var words := [word];
      if useVariants {
        words := GenerateVariants(word);
      }
      ghost var tail := Candidates(lines[i + 1..], useVariants);
      CandidatesStep(lines, i, useVariants, words);
      var raised;
      results, yielded, raised := TryWords(c, words, tail, lo, hi, results, yielded);
      if raised {
        return Run(results, true);
      }
    }
    assert results + [] == results;
    return Run(results, false);
  }

  /**
   * The loop over the words of one dictionary line, followed by the words
   * `tail` of the lines after it: what has been produced and the names
   * remembered once these words are done, or the results up to a raise.
   */
  method TryWords(c: Constraint, words: seq<string>, ghost tail: seq<string>, lo: int, hi: nat,
                  results: seq<Acronym>, yielded: set<string>)
    returns (results': seq<Acronym>, yielded': set<string>, raised: bool)
    ensures raised ==>
      Run(results', true) == Then(Run(results, false), Enumerate(c, words + tail, lo, hi, yielded))
    ensures !raised ==>
      Then(Run(results', false), Enumerate(c, tail, lo, hi, yielded')) ==
      Then(Run(results, false), Enumerate(c, words + tail, lo, hi, yielded))
  {
    ghost var goal := Then(Run(results, false), Enumerate(c, words + tail, lo, hi, yielded));
    results', yielded' := results, yielded;
    assert words[0..] == words;
    for j := 0 to |words|
      invariant Then(Run(results', false), Enumerate(c, words[j..] + tail, lo, hi, yielded')) == goal
    {
      var w := words[j];
      Drop(words, j, tail);
      if Skipped(w, lo, hi, yielded') {
        continue;
      }
      var m := MatchRun(c, w);
      EnumerateStep(c, words[j..] + tail, lo, hi, yielded');
      ghost var rest := Enumerate(c, words[j + 1..] + tail, lo, hi, yielded' + NamesOf(m.results));
      ghost var before := results';
      results', yielded' := Produce(m.results, results', yielded');
      if m.raised {
        return results', yielded', true;
      }
      Regroup(before, m.results, rest.results);
    }
    DropAll(words, tail);
    raised := false;
  }

  /** The loop over one word's matches: produce each one and remember its name. */
  method Produce(ms: seq<Acronym>, results: seq<Acronym>, yielded: set<string>)
    returns (results': seq<Acronym>, yielded': set<string>)
    ensures results' == results + ms && yielded' == yielded + NamesOf(ms)
  {
    results', yielded' := results, yielded;
    for k := 0 to |ms|
      invariant results' == results + ms[..k]
      invariant yielded' == yielded + NamesOf(ms[..k])
    {
      assert ms[..k + 1] == ms[..k] + [ms[k]];
      yielded' := yielded' + {Name(ms[k])};
      results' := results' + [ms[k]];
    }
    assert ms[..|ms|] == ms;
  }

  /** The sequence facts one step of `TryWords`'s loop needs, proved apart from the loop. */
  lemma Drop(words: seq<string>, j: nat, tail: seq<string>)
    requires j < |words|
    ensures (words[j..] + tail)[0] == words[j] && (words[j..] + tail)[1..] == words[j + 1..] + tail
  {
  }

  /** Once every word is tried, only the tail is left. */
  lemma DropAll(words: seq<string>, tail: seq<string>)
    ensures words[|words|..] + tail == tail
  {
  }

  /** The results before a word, its run and the rest, in either grouping. */
  lemma Regroup(a: seq<Acronym>, b: seq<Acronym>, c: seq<Acronym>)
    ensures a + (b + c) == (a + b) + c
  {
  }

  /** The words of line `i`, then those of the lines after it. */
  lemma CandidatesStep(lines: seq<string>, i: nat, useVariants: bool, words: seq<string>)
    requires i < |lines| && words == WordsOf(lines[i], useVariants)
    ensures words + Candidates(lines[i + 1..], useVariants) == Candidates(lines[i..], useVariants)
  {
    assert lines[i..][1..] == lines[i + 1..];
  }

  /** `Enumerate` on a word it tries: that word's run, then the rest with its names remembered. */
  lemma EnumerateStep(c: Constraint, words: seq<string>, lo: int, hi: nat, yielded: set<string>)
    requires words != [] && !Skipped(words[0], lo, hi, yielded)
    ensures Enumerate(c, words, lo, hi, yielded) ==
      Then(MatchRun(c, words[0]), Enumerate(c, words[1..], lo, hi, yielded + NamesOf(MatchRun(c, words[0]).results)))
  {
  }

  /** The names of `Enumerate`'s results are none of the names produced before it. */
  lemma {:induction false} EnumerateFresh(c: Constraint, words: seq<string>, lo: int, hi: nat, yielded: set<string>)
    ensures forall r :: r in Enumerate(c, words, lo, hi, yielded).results ==> Name(r) !in yielded
    decreases |words|
  {
    if words != [] && !Skipped(words[0], lo, hi, yielded) {
      var m := MatchRun(c, words[0]);
      MatchRunSpellsWord(c, words[0]);
      EnumerateFresh(c, words[1..], lo, hi, yielded + NamesOf(m.results));
    } else if words != [] {
      EnumerateFresh(c, words[1..], lo, hi, yielded);
    }
  }

  /**
   * Every result is complete, consumed a word of allowed length, and is
   * one of the matches of a word tried, which names it.
   */
  lemma {:induction false} EnumerateSound(c: Constraint, words: seq<string>, lo: int, hi: nat, yielded: set<string>)
    ensures forall r :: r in Enumerate(c, words, lo, hi, yielded).results ==>
      IsComplete(r) && lo <= |r.items| <= hi &&
      exists w :: w in words && r in MatchRun(c, w).results && Name(r) == UpperString(w)
    decreases |words|
  {
    if words != [] {
      var e := Enumerate(c, words, lo, hi, yielded);
      if Skipped(words[0], lo, hi, yielded) {
        EnumerateSound(c, words[1..], lo, hi, yielded);
        assert forall w :: w in words[1..] ==> w in words;
      } else {
        var m := MatchRun(c, words[0]);
        var rest := Enumerate(c, words[1..], lo, hi, yielded + NamesOf(m.results));
        MatchRunSpellsWord(c, words[0]);
        EnumerateSound(c, words[1..], lo, hi, yielded + NamesOf(m.results));
        assert forall w :: w in words[1..] ==> w in words;
        assert forall r :: r in e.results ==> r in m.results || r in rest.results;
        assert words[0] in words;
      }
    }
  }

  /** `m` occurs in `rs` as one block, in its own order. */
  predicate Block(m: seq<Acronym>, rs: seq<Acronym>)
  {
    exists k :: 0 <= k <= |rs| - |m| && Window(rs, k, |m|) == m
  }

  /** The `n` elements of `rs` from position `k` on. */
  function Window(rs: seq<Acronym>, k: int, n: nat): seq<Acronym>
    requires 0 <= k <= |rs| - n
  {
    rs[k..k + n]
  }

  lemma NameNotProduced(c: Constraint, w: string, n: string)
    requires n != UpperString(w)
    ensures n !in NamesOf(MatchRun(c, w).results)
  {
    MatchRunSpellsWord(c, w);
  }

  lemma ShiftWindow(a: seq<Acronym>, b: seq<Acronym>, k: int, n: nat)
    requires 0 <= k <= |b| - n
    ensures Window(a + b, |a| + k, n) == Window(b, k, n)
  {
  }

  /**
   * Unless the loop raised, the first word with a given acronym name is
   * tried when that name was not produced before and its length is
   * allowed: all of its matches are produced, one after the other.
   */
  lemma {:induction false} EnumerateYieldsFirst(c: Constraint, words: seq<string>, lo: int, hi: nat, yielded: set<string>, i: nat)
    requires i < |words| && lo <= |words[i]| <= hi && UpperString(words[i]) !in yielded
    requires forall j :: 0 <= j < i ==> UpperString(words[j]) != UpperString(words[i])
    requires !Enumerate(c, words, lo, hi, yielded).raised
    ensures Block(MatchRun(c, words[i]).results, Enumerate(c, words, lo, hi, yielded).results)
    decreases i
  {
    var e := Enumerate(c, words, lo, hi, yielded);
    var mi := MatchRun(c, words[i]);
    if i == 0 {
      assert Window(e.results, 0, |mi.results|) == mi.results;
    } else {
      var n := UpperString(words[i]);
      assert words[1..][i - 1] == words[i];
      assert forall j :: 0 <= j < i - 1 ==> words[1..][j] == words[j + 1];
      if Skipped(words[0], lo, hi, yielded) {
        EnumerateYieldsFirst(c, words[1..], lo, hi, yielded, i - 1);
      } else {
        var m := MatchRun(c, words[0]);
        var seen := yielded + NamesOf(m.results);
        NameNotProduced(c, words[0], n);
        EnumerateStep(c, words, lo, hi, yielded);
        var rest := Enumerate(c, words[1..], lo, hi, seen);
        EnumerateYieldsFirst(c, words[1..], lo, hi, seen, i - 1);
        var k :| 0 <= k <= |rest.results| - |mi.results| && Window(rest.results, k, |mi.results|) == mi.results;
        ShiftWindow(m.results, rest.results, k, |mi.results|);
      }
    }
  }

  /** Results that share a name are adjacent: no name is produced again after another one. */
  predicate Grouped(rs: seq<Acronym>)
  {
    forall i, j, k :: 0 <= i < j < k < |rs| && Name(rs[i]) == Name(rs[k]) ==> Name(rs[j]) == Name(rs[i])
  }

  lemma GroupedAppend(a: seq<Acronym>, b: seq<Acronym>, n: string)
    requires forall r :: r in a ==> Name(r) == n
    requires forall r :: r in b ==> Name(r) != n
    requires Grouped(b)
    ensures Grouped(a + b)
  {
    var ab := a + b;
    forall i, j, k | 0 <= i < j < k < |ab| && Name(ab[i]) == Name(ab[k])
      ensures Name(ab[j]) == Name(ab[i])
    {
      if k < |a| {
        assert ab[i] in a && ab[j] in a && ab[k] in a;
      } else if i >= |a| {
        assert ab[i] == b[i - |a|] && ab[j] == b[j - |a|] && ab[k] == b[k - |a|];
      } else {
        assert false;
      }
    }
  }

  /** One word's run, all of one name, then grouped results of other names. */
  lemma GroupedThen(m: Run, rest: Run, n: string)
    requires forall r :: r in m.results ==> Name(r) == n
    requires m.results != [] ==> forall r :: r in rest.results ==> Name(r) != n
    requires Grouped(rest.results)
    ensures Grouped(Then(m, rest).results)
  {
    if m.raised {
      GroupedAppend(m.results, [], n);
      assert m.results + [] == m.results;
    } else if m.results == [] {
      assert m.results + rest.results == rest.results;
    } else {
      GroupedAppend(m.results, rest.results, n);
    }
  }

  /** A word whose acronym name was already produced is not tried again. */
  lemma {:induction false} EnumerateGrouped(c: Constraint, words: seq<string>, lo: int, hi: nat, yielded: set<string>)
    ensures Grouped(Enumerate(c, words, lo, hi, yielded).results)
    decreases |words|
  {
    if words != [] {
      if Skipped(words[0], lo, hi, yielded) {
        EnumerateGrouped(c, words[1..], lo, hi, yielded);
      } else {
        var m := MatchRun(c, words[0]);
        var seen := yielded + NamesOf(m.results);
        MatchRunSpellsWord(c, words[0]);
        EnumerateStep(c, words, lo, hi, yielded);
        EnumerateGrouped(c, words[1..], lo, hi, seen);
        EnumerateFresh(c, words[1..], lo, hi, seen);
        if m.results != [] {
          assert Name(m.results[0]) in seen;
        }
        GroupedThen(m, Enumerate(c, words[1..], lo, hi, seen), UpperString(words[0]));
      }
    }
  }

  lemma NamesOfAppend(a: seq<Acronym>, b: seq<Acronym>)
    ensures NamesOf(a + b) == NamesOf(a) + NamesOf(b)
  {
    forall n | n in NamesOf(a + b) ensures n in NamesOf(a) + NamesOf(b) {
      var r :| r in a + b && Name(r) == n;
      assert r in a || r in b;
    }
    forall n | n in NamesOf(a) + NamesOf(b) ensures n in NamesOf(a + b) {
      if n in NamesOf(a) {
        var r :| r in a && Name(r) == n;
        assert r in a + b;
      } else {
        var r :| r in b && Name(r) == n;
        assert r in a + b;
      }
    }
  }

  /**
   * Unless the loop raised, every word of allowed length that has a
   * match had its name produced, by this word or by an earlier one.
   */
  lemma {:induction false} EnumerateCovers(c: Constraint, words: seq<string>, lo: int, hi: nat, yielded: set<string>)
    ensures !Enumerate(c, words, lo, hi, yielded).raised ==>
      forall w :: w in words && lo <= |w| <= hi && MatchRun(c, w).results != [] ==>
        UpperString(w) in yielded + NamesOf(Enumerate(c, words, lo, hi, yielded).results)
    decreases |words|
  {
    if words != [] {
      var e := Enumerate(c, words, lo, hi, yielded);
      assert forall w :: w in words ==> w == words[0] || w in words[1..];
      if Skipped(words[0], lo, hi, yielded) {
        EnumerateCovers(c, words[1..], lo, hi, yielded);
      } else {
        var m := MatchRun(c, words[0]);
        var rest := Enumerate(c, words[1..], lo, hi, yielded + NamesOf(m.results));
        EnumerateCovers(c, words[1..], lo, hi, yielded + NamesOf(m.results));
        if !e.raised {
          NamesOfAppend(m.results, rest.results);
          MatchRunSpellsWord(c, words[0]);
          if m.results != [] {
            assert Name(m.results[0]) in NamesOf(m.results);
          }
        }
      }
    }
  }

  /**
   * What `generate` produces: nothing but a raise when the tree has an
   * empty `()`; otherwise complete matches of dictionary words (or their
   * variants), each no shorter than `min_length` and within the tree's
   * length range, and named by the word it matches.
   */
  lemma GenerateSound(c: Constraint, lines: seq<string>, minLength: int, useVariants: bool)
    ensures !HasMax(c) ==> Generated(c, lines, minLength, useVariants) == Run([], true)
    ensures HasMax(c) ==> HasMin(c)
    ensures HasMax(c) ==> forall r :: r in Generated(c, lines, minLength, useVariants).results ==>
      IsComplete(r) && minLength <= |r.items| && MinLength(c) <= |r.items| <= MaxLength(c) &&
      exists w :: w in Candidates(lines, useVariants) && r in MatchRun(c, w).results && Name(r) == UpperString(w)
  {
    if HasMax(c) {
      HasMaxHasMin(c);
      EnumerateSound(c, Candidates(lines, useVariants), Shortest(c, minLength), MaxLength(c), {});
    }
  }

  /** `generate` never comes back to an acronym name once it has moved on to another. */
  lemma GenerateGrouped(c: Constraint, lines: seq<string>, minLength: int, useVariants: bool)
    ensures Grouped(Generated(c, lines, minLength, useVariants).results)
  {
    if HasMax(c) {
      HasMaxHasMin(c);
      EnumerateGrouped(c, Candidates(lines, useVariants), Shortest(c, minLength), MaxLength(c), {});
    }
  }

  /**
   * Unless it raised, `generate` produced the name of every non-empty
   * dictionary word of at least `min_length` letters that the tree
   * matches.
   */
  lemma GenerateCovers(c: Constraint, lines: seq<string>, minLength: int, useVariants: bool, w: string)
    requires HasMax(c) && !Generated(c, lines, minLength, useVariants).raised
    requires w in Candidates(lines, useVariants) && w != [] && |w| >= minLength && Matches(c, w) != []
    ensures UpperString(w) in NamesOf(Generated(c, lines, minLength, useVariants).results)
  {
    HasMaxHasMin(c);
    LengthFilterIsExact(c, w);
    EnumerateCovers(c, Candidates(lines, useVariants), Shortest(c, minLength), MaxLength(c), {});
  }

  /**
   * Unless it raised, `generate` produced every match of the first
   * dictionary word (or variant) with a given acronym name, one after the
   * other, when the word is no shorter than `min_length`.
   */
  lemma GenerateYieldsMatches(c: Constraint, lines: seq<string>, minLength: int, useVariants: bool, i: nat)
    requires HasMax(c) && !Generated(c, lines, minLength, useVariants).raised
    requires i < |Candidates(lines, useVariants)|
    requires Candidates(lines, useVariants)[i] != [] && |Candidates(lines, useVariants)[i]| >= minLength
    requires forall j :: 0 <= j < i ==>
      UpperString(Candidates(lines, useVariants)[j]) != UpperString(Candidates(lines, useVariants)[i])
    ensures Block(Matches(c, Candidates(lines, useVariants)[i]), Generated(c, lines, minLength, useVariants).results)
  {
    var ws := Candidates(lines, useVariants);
    var g := Generated(c, lines, minLength, useVariants);
    HasMaxHasMin(c);
    if Matches(c, ws[i]) == [] {
      assert Window(g.results, 0, 0) == [];
    } else {
      LengthFilterIsExact(c, ws[i]);
      EnumerateYieldsFirst(c, ws, Shortest(c, minLength), MaxLength(c), {}, i);
    }
  }
}
