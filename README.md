# visie in Dafny

visie finds acronyms. A *constraint* is written in a small bracket syntax:
- `<a b>`: all of the terms, in order;
- `[a b]`: all of them, in any order;
- `(a b)`: exactly one of them;
- `{a b}`: any of them, in any order, each at most once;
- `.`: any letter;
- `x?`: `x` is optional;
- any other word is a dictionary word that contributes its first letter.

`generate` runs such a constraint over a dictionary. Every dictionary word (or every spelling variant of it) that the constraint spells completely, letter by letter, yields an acronym: the chosen words plus the name they spell.

This project models the three core files of the repository:

- **visie/visie.py**: the `Acronym` value, the constraint tree and its backtracking matchers, `min_length`/`max_length`, `matches`, and `generate`. The tree and its matchers are pure: a datatype and functions returning the results in the order the generators yield them. `generate` is a method with the source's loops, proved equal to a specification function.
- **visie/parser.py**: the tokenizer, the push-back `Tokenizer`, and the recursive-descent `Parser`.
  - `Tokenize` runs the source's character loop.
  - `Tokenizer` is a class with the buffer and pending tokens as fields.
  - `Parser` is a class whose methods run the source's loops against its tokenizer.
  - Each method is proved equal to a function on token streams, and the laws are proved about those functions:
    - the parser reads back every constraint written in its own syntax;
    - a missing closer is reported against the opening delimiter;
    - a successful parse lexed cleanly.
- **visie/variants.py**: the `VARIATION_MAPPING` table, `unique_everseen` (two loops), and `generate_variants` (the scan with its `skip` flag, the product, and de-duplication).

Files:
- `text.dfy`: ASCII case mapping and `strip`.
- `visie.dfy`: the data model and matchers.
- `visie_lemmas.dfy`: consumption and length bounds.
- `combinator_laws.dfy`: what each combinator yields.
- `generation.dfy`: `generate`.
- `lexing.dfy`: `tokenize` and `Tokenizer`.
- `parsing.dfy`: `Parser`.
- `parse_laws.dfy`: round trip and errors.
- `parser_examples.dfy`: concrete texts.
- `variants.dfy`: the variant expander.

Where the code and an informal reading of the tool differ, the model follows the code:
- A non-final child of `<>` or `[]` must leave letters over. A complete result from such a child is dropped, so `<a b?>` never matches "a".
- `{}` yields only complete results.
- Several top-level terms become `{...}`.
- A closing delimiter of another kind inside a group is read as a dictionary word.
- `parse()` of text with no terms fails.

Errors are values. A generator that raises part-way is a `Run`: what it yielded, plus a flag saying it raised. A parser failure is a `LexOrParseError`, which names the token or offset involved.

## Model

| member | source | states |
|---|---|---|
| Visie.Plus | visie/visie.py:26-27 | `__add__`: the items of both and the remainder of the second; `VisieLemmas.NamePlus` states that names concatenate |
| Visie.Name | visie/visie.py:20-21 | `name()`: the upper-cased first letter of each item; `VisieLemmas.CompleteMatchSpellsWord` states that a complete match's name is the matched word upper-cased |
| Visie.Match | visie/visie.py:91-257 | `c.match(s)` on a non-empty word: every result in yield order, by kind (leaves, `{}`, `<>`, `[]`, `()`, `?`); its laws are `VisieLemmas.MatchConsumes` and `VisieLemmas.MatchBounds` |
| Visie.OrderedMatch | visie/visie.py:139-155 | `OrderedConstraint.match`; characterised by `CombinatorLaws.InOrdered`, `OrderedSingle` and `CompleteNonFinalChildIsDropped` |
| Visie.AnyOfMatch | visie/visie.py:113-125 | `AnyOfConstraint.match`; characterised by `CombinatorLaws.AnyOfIsSomeSelection` |
| Visie.AllOfMatch | visie/visie.py:196-211 | `AllOfConstraint.match`; characterised by `CombinatorLaws.AllOfIsSomeOrdering` |
| Visie.ExactlyOneMatch | visie/visie.py:225-227 | `ExactlyOneConstraint.match`; characterised by `CombinatorLaws.ExactlyOnePair`, `ExactlyOneAppend` and `InExactlyOne` |
| Visie.Matches | visie/visie.py:72-73 | `matches(word)`: the complete results of `match`; `Visie.CompleteOnly` and `Generation.MatchRunSpellsWord` state what they are |
| Visie.MatchEmpty | visie/visie.py:91-257 | `c.match("")`: what is yielded before a leaf raises on `word[0]`; `CombinatorLaws.EmptyRunResults` states that all of it is the empty acronym |
| Visie.HasMin | visie/visie.py:229-230 | `min_length()` returns without raising; `VisieLemmas.HasMaxHasMin` relates it to `HasMax` |
| Visie.HasMax | visie/visie.py:232-233 | `max_length()` returns without raising: no `()` in the tree is empty |
| Visie.MinLength | visie/visie.py:95-246 | `min_length()` of every kind; `VisieLemmas.MatchBounds` states that no result is shorter |
| Visie.MaxLength | visie/visie.py:95-246 | `max_length()` of every kind; `VisieLemmas.MatchBounds` states that no result is longer |
| Generation.Generated | visie/visie.py:269-290 | `generate` run to its end, with the defaults `min_length=3` and `use_variants=False`; its laws are `Generation.GenerateSound`, `GenerateGrouped` and `GenerateCovers` |
| Generation.Enumerate | visie/visie.py:283-290 | the loop of `generate` over candidate words; its laws are the four `Generation.Enumerate*` lemmas |
| Lexing.LexFrom | visie/parser.py:13-31 | `tokenize` from offset `i`; `Lexing.LexAtPunct`, `LexAtBlank`, `LexRunEnds` and `LexRunFails` state it case by case |
| Lexing.Lex | visie/parser.py:13-31 | `tokenize(text)`; `Lexing.TokensAreCutFromText`, `LexFailsAtFirstIllegal` and `TokensSpellNonBlank` state what it yields |
| Parsing.GroupBody | visie/parser.py:72-81 | the loop of `_parse`: consumes no more than it has and keeps the lexing error on success |
| Parsing.ParseStream | visie/parser.py:106-120 | `parse()` on a token stream; `ParseLaws.ParseRoundTrip`, `TermsRoundTrip` and `ParsedTextLexes` are its laws |
| Parsing.ParseText | visie/parser.py:106-120 | `Parser(text).parse()`; the `ParserExamples` lemmas evaluate it on concrete texts |
| Variants.DedupBy | visie/variants.py:23-38 | `unique_everseen(xs, key)`; `Variants.DedupKeysDistinct`, `DedupCovers` and `DedupIsFirstOccurrences` are its laws |
| Variants.Dedup | visie/variants.py:23-32 | `unique_everseen(xs)` without a key; `Variants.InDedup` characterises it |
| Variants.Combos | visie/variants.py:58 | `itertools.product` joined into strings; `Variants.CombosSize` and `InCombos` characterise it |
| Variants.Variations | visie/variants.py:44-57 | the product factors: the word's letters, then one factor per piece (a key's listed replacements, or the letter itself) |
| Variants.Variants | visie/variants.py:40-58 | `generate_variants(word)`; `Variants.InVariants`, `VariantsDistinct` and `BlankHasNoVariants` are its laws |
| VisieLemmas.NamePlus | visie/visie.py:20-27 | the name of `a + b` is the name of `a` followed by the name of `b` |
| CombinatorLaws.InPrefixed | visie/visie.py:121-122 | a continued result is `match + m` for some continuation `m`, and every such sum is one |
| Visie.CompleteOnly | visie/visie.py:72-73 | `matches` keeps a result iff the matcher yielded it and it is complete |
| VisieLemmas.MatchConsumes | visie/visie.py:91-257 | every result of `c.match(s)` consumed a prefix of `s`, one letter per item, its remainder is the rest of `s`, and its name is that prefix upper-cased |
| VisieLemmas.OrderedConsumes | visie/visie.py:139-155 | the consumption invariant for `<>` |
| VisieLemmas.AnyOfConsumes | visie/visie.py:113-125 | the consumption invariant for `{}` |
| VisieLemmas.AllOfConsumes | visie/visie.py:196-211 | the consumption invariant for `[]` |
| VisieLemmas.ExactlyOneConsumes | visie/visie.py:225-227 | the consumption invariant for `()` |
| VisieLemmas.CompleteMatchSpellsWord | visie/visie.py:20-21 | a complete match of `s` has one item per letter and its name is `s` upper-cased |
| VisieLemmas.HasMaxHasMin | visie/visie.py:229-233 | if `max_length()` returns without raising, so does `min_length()` (only an empty `()` makes them raise) |
| VisieLemmas.MatchBounds | visie/visie.py:95-260 | every result has between `min_length()` and `max_length()` items |
| VisieLemmas.OrderedBounds | visie/visie.py:157-161 | results of `<>` lie between the sums of the children's minima and maxima |
| VisieLemmas.AnyOfBounds | visie/visie.py:127-131 | results of `{}` have at most the sum of the children's maxima |
| VisieLemmas.AllOfBounds | visie/visie.py:213-217 | results of `[]` lie between the sums of the children's minima and maxima |
| VisieLemmas.ExactlyOneBounds | visie/visie.py:229-233 | results of `()` lie between the least minimum and the greatest maximum |
| VisieLemmas.LengthFilterIsExact | visie/visie.py:286-288 | a word that some complete match spells has a length within `[min_length(), max_length()]`, so the length filter of `generate` loses no result |
| CombinatorLaws.InOrdered | visie/visie.py:139-152 | a result of `<>` is a result of the only child, or a partial first-child result extended by a result of the rest; an empty `<>` yields nothing |
| CombinatorLaws.OrderedSingle | visie/visie.py:146-149 | `<x>` yields exactly what `x` yields |
| CombinatorLaws.CompleteNonFinalChildIsDropped | visie/visie.py:144-152 | `<a b?>` has no complete match on "a" |
| CombinatorLaws.OptionalSkipsFirst | visie/visie.py:255-257 | `x?` yields the skip result (no items, nothing consumed) first, then every result of `<x>` |
| CombinatorLaws.ExactlyOnePair | visie/visie.py:225-227 | `(a b)` yields the results of `a`, then those of `b`, unmodified |
| CombinatorLaws.ExactlyOneAppend | visie/visie.py:225-227 | `()` over two child lists yields the results of the first list, then those of the second |
| CombinatorLaws.InExactlyOne | visie/visie.py:225-227 | a result of `()` is a result of one of its children, and conversely |
| CombinatorLaws.AllOfIsSomeOrdering | visie/visie.py:196-211 | a result of `[]` is a result of `<>` over some ordering of all its children, and conversely |
| CombinatorLaws.AnyOfIsSomeSelection | visie/visie.py:113-125 | a result of `{}` is exactly a complete result of `<>` over some ordering of a non-empty selection of its children |
| CombinatorLaws.EmptyRunResults | visie/visie.py:255-257 | whatever a constraint yields on the empty word before a leaf raises is the empty acronym |
| Text.Strip | visie/visie.py:279 | `strip()` returns a slice of the line with only white space cut off both ends, and the result starts and ends with non-space |
| Generation.MatchRunSpellsWord | visie/visie.py:72-73 | every result `matches(word)` yields is complete, has one item per letter and is named by the upper-cased word |
| Generation.Generate | visie/visie.py:269-290 | the nested loops over lines, words and matches produce exactly `Generated`, including a raise before any output when the tree has an empty `()` |
| Generation.TryWords | visie/visie.py:283-290 | the loop over one line's words skips words whose name was produced or whose length is out of range, and produces the rest's matches |
| Generation.Produce | visie/visie.py:289-290 | the loop over one word's matches produces each match and records its name |
| Generation.EnumerateFresh | visie/visie.py:284-290 | no produced name is one recorded before |
| Generation.EnumerateSound | visie/visie.py:283-290 | every product is complete, within the length range, and one of the matches of a tried word, named by that word |
| Generation.EnumerateGrouped | visie/visie.py:284-290 | results that share a name are adjacent |
| Generation.EnumerateYieldsFirst | visie/visie.py:282-290 | the first occurrence of a word that is tried yields all of that word's matches, in order and together, unless an earlier word raised |
| Generation.EnumerateCovers | visie/visie.py:283-290 | unless it raised, the name of every tried word of allowed length that has a match was produced or recorded before |
| Generation.GenerateSound | visie/visie.py:269-290 | `generate` raises at once on an empty `()`; otherwise it yields complete matches with at least `min_length` and at least `min_length()` and at most `max_length()` items, each one of the matches of a dictionary word or variant and named by it |
| Generation.GenerateGrouped | visie/visie.py:278-290 | `generate` never yields a name again after moving on to another |
| Generation.GenerateCovers | visie/visie.py:278-290 | unless it raised, `generate` yielded the name of every non-empty word of at least `min_length` letters that the constraint matches |
| Generation.GenerateYieldsMatches | visie/visie.py:275-290 | unless it raised, `generate` yields every match of the first occurrence of each non-empty candidate of at least `min_length` letters, in order and together |
| Lexing.RunEnd | visie/parser.py:26-27 | the end of the maximal run of letters starting at `i` |
| Lexing.LexAtPunct | visie/parser.py:16-20 | a punctuation character is a one-character token |
| Lexing.LexAtBlank | visie/parser.py:21-25 | a blank only separates tokens |
| Lexing.LexRunEnds | visie/parser.py:14-31 | a maximal run of letters ended by punctuation, a blank or the end is one token at its offset |
| Lexing.LexRunFails | visie/parser.py:26-29 | an illegal character ends the stream with an error at its offset, and the run of letters before it is not emitted |
| Lexing.Tokenize | visie/parser.py:13-31 | the character loop with its `word` accumulator yields exactly the token stream `Lex(text)` |
| Lexing.Separate | visie/parser.py:16-25 | at punctuation or a blank, the pending word is flushed and the punctuation is emitted |
| Lexing.TokensAreCutFromText | visie/parser.py:13-31 | every token is the slice of the text at its offset, is punctuation or a maximal letter run, and ends before the next begins |
| Lexing.LexFailsAtFirstIllegal | visie/parser.py:26-29 | the stream fails exactly at the first illegal character, and never when there is none |
| Lexing.IllegalExamples | test/test_parser.py:12-13 | "illegal1" and "illegal!" fail at offset 7 with no tokens |
| Lexing.TokensSpellNonBlank | visie/parser.py:13-31 | when the text lexes cleanly, the tokens spell the text with its blanks removed |
| Lexing.PullsInOrder | visie/parser.py:40-45 | successive pulls hand out the tokens one by one in text order and leave the remaining tokens and the pending error |
| Lexing.RaisesOnce | visie/parser.py:40-45 | once the tokens are used up, the next pull stops or raises the lexing error, and every later pull stops: the error is raised at most once |
| Lexing.PeekTwice | visie/parser.py:46-52 | peeking twice gives the same answer; after a peek that raised, the stream is finished |
| Lexing.ExpectOf | visie/parser.py:55-62 | `expect(p)` consumes a token and succeeds iff there was one and it starts with `p` |
| Lexing.Tokenizer.constructor | visie/parser.py:34-36 | a new tokenizer holds the token stream of the text and an empty buffer |
| Lexing.Tokenizer.Pop | visie/parser.py:40-45 | `pop` takes the buffer's head when there is one, else the generator's next token |
| Lexing.Tokenizer.Peek | visie/parser.py:46-52 | `peek` buffers the next token and returns it without consuming, or returns None when none is left |
| Lexing.Tokenizer.Push | visie/parser.py:53-54 | `push(t)` puts `t` in front of the stream |
| Lexing.Tokenizer.Expect | visie/parser.py:55-62 | `expect` behaves as `ExpectOf` on the tokenizer's stream |
| Lexing.PushThenPop | visie/parser.py:40-54 | a pop after `push(t)` returns `t` and restores the stream |
| Lexing.PeekThenPop | visie/parser.py:40-52 | a pop after a peek returns the peeked token; peek finds nothing iff no tokens remain |
| Parsing.Begin | visie/parser.py:70 | a group's `BEGIN_DELIM` is one punctuation character |
| Parsing.End | visie/parser.py:74-78 | a group's `END_DELIM` is one punctuation character and opens no group |
| Parsing.DelimitersDistinct | visie/parser.py:89-91 | each kind has its own opener and its own closer |
| Parsing.GroupKindOf | visie/parser.py:89-91 | only `<`, `[`, `(`, `{` open a group, each of its own kind |
| ParseLaws.ArgsStepOptional | visie/parser.py:94-98 | a `?` after a term makes the argument list go on with that term made optional, as intended; as written the list fails at the `?` having consumed it |
| Parsing.ArgsFrom | visie/parser.py:83-104 | `_parse_arguments` consumes no more tokens than it has; on success it stops at the end or at a token equal to `until`, and it makes progress |
| Parsing.GroupFrom | visie/parser.py:69-81 | `_parse` consumes at least the opening token |
| Parsing.Close | visie/parser.py:77-81 | closing succeeds iff the next token starts with the closer; failure names the opening token |
| Parsing.Parser.constructor | visie/parser.py:64-67 | a parser holds its text and a fresh tokenizer over it |
| Parsing.Parser.ParseGroup | visie/parser.py:69-81 | the method's loop computes `GroupFrom` on the tokenizer's stream |
| Parsing.Parser.ParseArguments | visie/parser.py:83-104 | the method's loop computes `ArgsFrom` on the tokenizer's stream |
| Parsing.Parser.Parse | visie/parser.py:106-120 | the method computes `ParseStream`: no terms fail, one term is returned, several are `{}` |
| ParseLaws.ParseRoundTrip | visie/parser.py:83-104 | parsing the token spelling of any constraint gives it back and consumes every token |
| ParseLaws.TermsRoundTrip | visie/parser.py:114-120 | several spelled terms at the top level parse to `{}` of them |
| ParseLaws.LexSpaced | visie/parser.py:13-31 | letter runs and punctuation characters written out with a blank after each are tokenized back to themselves, with no error |
| ParseLaws.ParseTextRoundTrip | visie/parser.py:106-120 | the round trip on text: a constraint written out token by token with blanks is parsed back to itself |
| ParseLaws.AsWrittenOptionalFails | visie/parser.py:94-98 | as written the parser fails on every `x?` at the `?` token; as intended it returns the optional |
| ParseLaws.UnclosedGroupReported | visie/parser.py:77-80 | a group missing its closing delimiter fails, naming its opening token |
| ParseLaws.EmptyArgsDanglingOptional | visie/parser.py:94-96 | a `?` that starts any argument list, whatever closer it runs to, fails naming that `?`, without consuming it |
| ParseLaws.GroupDanglingOptional | visie/parser.py:69-98 | a group whose body starts with `?` (`<?>`, the `{? b}` in `a {? b}`) fails naming that `?`, and so does the argument list around it |
| ParseLaws.DanglingOptionalRejected | visie/parser.py:94-96 | a text whose first token is `?` fails to parse, naming that token |
| ParseLaws.ParsedTextLexes | visie/parser.py:106-120 | a successful parse consumed every token and the text has no illegal character |
| ParseLaws.ArgsStepEnd | visie/parser.py:86-88 | an argument list stops, without consuming, at a token equal to `until` |
| ParseLaws.GroupStepClose | visie/parser.py:72-81 | a group body at its closing delimiter builds the group and consumes the closer |
| ParserExamples.ParseWord | test/test_parser.py:16 | `foo` parses to the dictionary word `foo` |
| ParserExamples.ParseTwoWords | test/test_parser.py:17 | `foo bar` parses to `{foo bar}` |
| ParserExamples.ParseGroupOfWords | test/test_parser.py:18-20 | each pair of delimiters around `foo bar` parses to its kind of group |
| ParserExamples.ParseBraces | test/test_parser.py:18 | `{foo bar}` parses to any-of `foo`, `bar` |
| ParserExamples.ParseOptional | test/test_parser.py:21 | `foo?` parses to the optional `foo` as intended, and fails at the `?` as written |
| ParserExamples.ParseWildcard | test/test_parser.py:22 | `.` parses to the wildcard |
| ParserExamples.ParseStrayCloser | visie/parser.py:87-103 | `<a ]>` parses to `<a ]>` with `]` a dictionary word |
| ParserExamples.ParseUnclosed | visie/parser.py:77-80 | `<foo` fails against the `<` at offset 0 |
| ParserExamples.ParseDangling | visie/parser.py:94-96 | `?` alone fails against that `?` |
| ParserExamples.ParseBlank | visie/parser.py:114-116 | blank text has no terms |
| ParserExamples.ParseIllegal | visie/parser.py:28-29 | `illegal1` fails with a lexing error at offset 7 |
| Variants.MappingShape | visie/variants.py:3-21 | every key of the table is one or two letters and has at least one replacement |
| Variants.NoKeyEndsInBlank | visie/variants.py:46-51 | the last letter, paired with the trailing blank, is never a key |
| Variants.UniqueEverseen | visie/variants.py:27-32 | the keyless loop yields `Dedup(xs)` |
| Variants.UniqueEverseenBy | visie/variants.py:33-38 | the keyed loop yields `DedupBy(xs, key)` |
| Variants.DedupKeysDistinct | visie/variants.py:23-38 | no two yielded elements share a key, and none has a key seen before |
| Variants.DedupCovers | visie/variants.py:23-38 | every yielded element is from the input, and every unseen key of the input is yielded |
| Variants.InDedup | visie/variants.py:29-32 | without a key, an element is yielded iff it is in the input and was not seen before |
| Variants.DedupIsFirstOccurrences | visie/variants.py:23-26 | de-duplication keeps exactly the first element of each key, in input order |
| Variants.PiecesFrom | visie/variants.py:46-53 | the scan splits the word into pieces of one or two letters, starting at the current letter |
| Variants.PairStep | visie/variants.py:51-53 | at a two-letter key the scan adds that key's replacements and skips the next letter |
| Variants.SingleStep | visie/variants.py:54-57 | at any other letter the scan adds that letter's replacements or the letter itself |
| Variants.ScanVariations | visie/variants.py:44-57 | the loop with the `skip` flag builds exactly the factor list `Variations(w)` |
| Variants.GenerateVariants | visie/variants.py:40-58 | strip, lower-case, return nothing for blank input, else the de-duplicated joined product of the factors |
| Variants.BlankHasNoVariants | visie/variants.py:41-43 | a word that is blank after stripping has no variants |
| Variants.PiecesSpellWord | visie/variants.py:46-53 | the pieces, joined, spell the word |
| Variants.PiecesAreGreedy | visie/variants.py:46-53 | a two-letter key is always preferred to a single letter |
| Variants.CombosSize | visie/variants.py:58 | the product has one combination per pick |
| Variants.InCombos | visie/variants.py:58 | a string is a combination iff it joins one pick from each factor |
| Variants.InVariants | visie/variants.py:40-58 | a string is a variant iff it is one letter of the stripped, lower-cased word followed by one replacement per piece |
| Variants.VariantsDistinct | visie/variants.py:58 | no variant is listed twice |

## Left out

- `AnyOrderedConstraint` (visie/visie.py:164-188) is not modelled: the parser never builds it.
- `__str__`, `__repr__`, `Token.__str__`'s caret diagnostics, and the text of every error message are not modelled. Errors are the `LexOrParseError` datatype.
- `ParseException` is imported by the tests but not defined in parser.py. Every failure of the tokenizer and parser is one error datatype here.
- `parse()` on text with no terms fails here with `NoTerms`. The source instead fails with `AttributeError`, because it reads `self.fulltext` while the field is `self._fulltext`. Either way the call raises, and the model does not distinguish the kinds of exception.
- Unicode is left out: case mapping, `strip()` and the letter test cover ASCII only.
- `generate` does not open a file. The dictionary is the sequence of its lines. The command-line front end in visie/__main__.py is not part of this model.
- Generators are modelled as finite sequences in yield order, run to completion. A consumer that stops early is not modelled.
- The lazy lexing error is modelled: tokens before an illegal character are handed out first, and the error is raised at the next pull.
- `Tokenizer.__iter__` (visie/parser.py:37-39) is not modelled: the parser never uses it.
- A remainder of `None` and a remainder of `""` are both the empty remainder. The source treats both as complete.
- A dictionary word is a non-empty string. The parser only builds words from tokens, which are never empty.
- `AllOfConstraint` keeps a `frozenset` of child indices. The model fixes ascending order. CPython iterates these frozensets in the same order for up to 8 children. With 9 or more children, only the order of the `[]` results can differ, not the results themselves (`CombinatorLaws.AllOfIsSomeOrdering` does not depend on order).
- The end-to-end examples of test/test_visie.py need the dictionary file and are not modelled.
- Parsing.Parser: its methods parse `?` as intended, wrapping the term in an optional. The as-written behaviour, which always fails, is stated by the parsing functions with `AsWritten` (see Findings).

## Findings

| source | as written | input that shows it | evidently intended | confidence | as-written member | corrected member |
|---|---|---|---|---|---|---|
| visie/parser.py:98 | `visie.Optional` is the `typing.Optional` that visie.py imports (visie/visie.py:4). Calling it raises, so every `x?` makes the parser fail at the `?` | `foo?` | wrap the last term in `OptionalConstraint` (visie/visie.py:255), which test/test_parser.py:21 expects | not executed | ParseLaws.AsWrittenOptionalFails | ParseLaws.ParseRoundTrip |
