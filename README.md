# ers: a verified model of the S-expression rewriting core

ers is a small term-rewriting engine. Its data are S-expression trees
(`Expression`): lists, atoms, and six wildcards. They are the unnamed `_`,
`__` and `___`, and the named `name_`, `name__` and `name___`. The core has
five parts:

- A **matcher** matches a subject tree against a pattern tree and collects a
  map from names to bindings. A binding is one tree or a run of list
  elements. Sequence wildcards backtrack over candidate lengths, shortest
  first.
- A **binder** substitutes those bindings for the atoms of a template tree.
  It splices sequence bindings into the enclosing list.
- A **rewriter** applies one rule (a pattern and a template) in three ways:
  at the root, at every node top-down in one pass, or pass after pass until
  a pass changes nothing. The last mode has a hard pass limit.
- A **renderer** (the `Debug` output) prints a tree.
- A **parser** reads the textual form back. It is a recursive-descent reader
  with one character of lookahead, and it reports discrete error codes.

The Dafny project has one module per part:

| file | module | models |
|---|---|---|
| `wrappers.dfy` | `Wrappers` | `Option` and `Result` |
| `expressions.dfy` | `Expressions` | the `Expression` datatype; the renderer `Show` and its loop `Format` |
| `binding.dfy` | `Binder` | the `Binding` type and the two `bind` implementations |
| `matching.dfy` | `Matching` | `match_pattern`, `match_expression`, `match_seq` |
| `rewriting.dfy` | `Rewriting` | `replace`, `replace_rec`, `replace_all`, `replace_repeated` |
| `parser.dfy` | `Parsing` | the `Parser` class, its error codes, and `from_str` |

Each operation that works step by step is a method proved equal to a
recursive specification function. Those operations are the matcher's
candidate loops, the binder's splicing loop, the rewriter's child loop and
pass loop, the renderer's join loop and every parser method. The
properties are lemmas about the specification functions.

The matcher threads its bindings map through every step, as the source's
`&mut HashMap` is. The parser is a class whose fields `iter` (the characters
not yet drawn) and `ch` (the lookahead) are updated by `Bump`. A ghost
position ties each method to an index-based reader on the whole input
string.

The model keeps these quirks of the code as written:

- A repeated name is overwritten with no equality check.
- A zero-or-more head facing an empty remainder succeeds without looking at
  the rest of the pattern.
- Bindings made by a failed candidate of an unnamed sequence head are not
  rolled back.
- A standalone `name__` or `name___` pattern fails.

The documentation comment of `replace_repeated` speaks of 1000 repetitions.
The code counts `limit` from 1000 down to 0 inclusive, so it runs up to 1001
passes before it panics. The model follows the code (`Limit + 1` passes).

## Model

| member | source | states |
|---|---|---|
| Expressions.Format | src/expression/mod.rs:176-199 | The `Debug` loop joins the children's renderings with single spaces inside parentheses. Its output equals the recursive rendering `Show`, for every tree. |
| Expressions.ShowItemsSnoc | src/expression/mod.rs:181-188 | Appending a child to a non-empty list of children appends one space and that child's rendering. This is the loop step of the list case. |
| Expressions.ShowNestedList | src/expression/mod.rs:215-226 | The tree `(a b (c d))` built from atoms renders as `(a b (c d))`. |
| Expressions.ShowWildcards | src/expression/mod.rs:189-196 | The empty list renders as `()`. The wildcards render as `_`, `__` and `___`, and named patterns as the name plus the same suffix. |
| Matching.InsertAll | src/matching.rs:106-108 | Copying a candidate map into the outer map key by key gives the outer map overridden by the candidate map. |
| Matching.MatchExpression | src/matching.rs:56-73 | `match_expression` returns exactly the success flag and the bindings map that the specification `ExpressionMatch` gives for the same input map. |
| Matching.MatchSeq | src/matching.rs:75-140 | `match_seq`, with its candidate loops and early returns, returns exactly what `SeqMatch` gives, including the bindings that failed candidates leave. |
| Matching.MatchPattern | src/matching.rs:46-53 | `match_pattern` starts from the empty map. It returns `Some` of the final map exactly when the match succeeds, and `None` otherwise. |
| Matching.WildcardMatchesAnything | src/matching.rs:58-60 | `_`, `__` or `___` as the whole pattern matches every subject and leaves the map unchanged. From the empty map the result is `Some({})`. |
| Matching.PatternBindsSubject | src/matching.rs:61-64 | `name_` matches every subject. It maps `name` to that subject and overwrites any earlier entry. |
| Matching.NodeCases | src/matching.rs:65-71 | Atom against atom matches exactly when the names are equal. List against list is the children's sequence match. A standalone `name__`/`name___`, an atom pattern against a non-atom and a list pattern against a non-list all fail, leaving the map unchanged. |
| Matching.SeqCases | src/matching.rs:76-138 | An empty pattern list matches exactly the empty subject list. A head that is not a sequence wildcard fails on an empty subject. Otherwise the head must match the first element, and then the tails must match on the resulting map. |
| Matching.NullSeqOnEmptyRemainder | src/matching.rs:89-118 | A `___` or `name___` head facing an empty subject succeeds at once, whatever the rest of the pattern is. `name___` binds the name to the empty sequence. |
| Matching.ExpressionMatchedIndependent | src/matching.rs:56-73 | Whether a node matches does not depend on the bindings map it starts from. |
| Matching.SeqMatchedIndependent | src/matching.rs:75-140 | Whether a list matches does not depend on the bindings map it starts from. |
| Matching.BlankSeqSearchIndependent | src/matching.rs:82-87 | The success of the unnamed candidate loop does not depend on the starting map. |
| Matching.PatternSeqSearchIndependent | src/matching.rs:102-112 | The success of the named candidate loop does not depend on the starting map. |
| Matching.ExpressionMatchFrame | src/matching.rs:56-73 | Matching a node keeps every existing entry. It adds or changes only names that occur in the pattern. |
| Matching.SeqMatchFrame | src/matching.rs:75-140 | Matching a list keeps every existing entry. It adds or changes only names that occur in the pattern list. |
| Matching.BlankSeqSearchFrame | src/matching.rs:81-99 | The unnamed candidate loop writes only names of the pattern list and keeps all other entries. |
| Matching.PatternSeqSearchFrame | src/matching.rs:101-130 | The named candidate loop writes only names of the pattern list and keeps all other entries. |
| Matching.PatternSeqSearchFirst | src/matching.rs:101-130 | The named candidate loop from length `i` succeeds exactly when some length `k >= i` leaves a matching remainder. On success it returns the outer map overridden by the fresh map of the least such `k`. On failure the outer map is untouched. |
| Matching.PatternSeqHead | src/matching.rs:101-113 | A `name__` head takes the least `k >= 1` elements whose remainder matches with the name bound to them in a fresh map. That map is then copied over the outer map. If no `k` works, the match fails and the outer map is unchanged. |
| Matching.PatternNullSeqHead | src/matching.rs:114-131 | On a non-empty subject, a `name___` head does the same search from length 0. |
| Matching.BlankSeqSearchFirst | src/matching.rs:81-99 | The unnamed candidate loop from length `i` succeeds exactly when some `k >= i` leaves a matching remainder. The result is the remainder match at the least such `k`, run on whatever map the earlier failed candidates left. |
| Matching.BlankSeqHead | src/matching.rs:81-88 | A `__` head consumes the least `k >= 1` elements whose remainder matches, and fails when there is none. |
| Matching.BlankNullSeqHead | src/matching.rs:89-100 | On a non-empty subject, a `___` head does the same search from length 0. |
| Matching.SimpleMatchSound | src/matching.rs:56-73 | For a pattern of atoms, lists and distinct `name_` wildcards, a successful match binds every name to one tree. Filling the pattern with those bindings gives back the subject. |
| Matching.SimpleSeqMatchSound | src/matching.rs:132-138 | The same soundness holds for the children of such a pattern list. |
| Matching.SimpleMatchComplete | src/matching.rs:56-73 | Every filling of a pattern of atoms, lists and `name_` wildcards matches that pattern, from any map. |
| Matching.SimpleSeqMatchComplete | src/matching.rs:132-138 | Every filling of such a pattern list matches it, from any map. |
| Matching.SimpleMatchExact | src/matching.rs:46-53 | For such a linear pattern, `match_pattern` succeeds exactly when the subject is some filling of the pattern, and it then returns one. |
| Matching.InstanceMatches | src/matching.rs:56-73 | Completeness: a subject that is an instance of the pattern matches it, from any map. `_`, `__`, `___` and `name_` stand for any tree, an atom stands for itself, and a list stands for a list of instances of its children. |
| Matching.InstancesMatch | src/matching.rs:75-140 | Completeness for lists: children that are an instance of the pattern children match them, from any map. This covers every kind of head. A `__`/`name__` head stands for a run of k >= 1 elements, a `___`/`name___` head for a run of k >= 0, and any other head for one element that is an instance of it. |
| Matching.MatchInstance | src/matching.rs:46-53 | `match_pattern` returns bindings for every instance of the pattern. |
| Matching.MatchedFits | src/matching.rs:56-73 | Soundness, for patterns with no `___` or `name___` inside a list: a subject that matches the pattern, from any map, is an instance of it. |
| Matching.MatchedFitsSeq | src/matching.rs:75-140 | Soundness for lists, under the same restriction: children that match the pattern children are an instance of them. A `__`/`name__` head has consumed a run of k >= 1 elements whose remainder is an instance of the rest, and any other head one element that is an instance of it. |
| Matching.MatchIffFits | src/matching.rs:46-53 | Under the same restriction, `match_pattern` returns `Some` exactly when the subject is an instance of the pattern. |
| Matching.ExampleMatchDoc | src/matching.rs:38-45 | `(x (y z))` against `(_ a_)` gives `Some({a: (y z)})`. |
| Matching.ExampleLeftmostShortest | src/matching.rs:101-112 | `(x__ y_)` against `(1 2 3)` binds `x` to `[1, 2]` and `y` to `3`. |
| Matching.ExampleRepeatedNameOverwrites | src/matching.rs:61-64 | `(a_ a_)` matches `(1 2)` with `a = 2`, so the bindings do not reproduce the subject. |
| Matching.ExampleNullSeqIgnoresRest | src/matching.rs:89-92 | `(___ a)` matches `()`. |
| Matching.ExampleFailedCandidateLeaks | src/matching.rs:81-99 | `(__ ___ a_ z)` matches `(p q)` and reports `a = q`. That binding was left behind by a failed candidate. |
| Binder.BindExpression | src/binding.rs:55-87 | `bind` on one node equals `Bind`. An atom bound to a sequence becomes `(Sequence ...)` built element by element, an atom bound to a tree becomes that tree, an unbound atom and every wildcard stay, and a list is bound by the child loop. |
| Binder.BindList | src/binding.rs:90-120 | The child loop pushes each element of a sequence binding and, for every other child, the bound child. Its result equals `BindChildren`. |
| Binder.BindChildrenAppend | src/binding.rs:96-117 | Binding the children of `a + b` is binding `a` followed by binding `b`. Children are handled independently and in order. |
| Binder.BindChildrenAt | src/binding.rs:96-117 | The `i`-th child contributes its splice (a run of bound elements, or itself bound) between the results for the children before and after it. |
| Binder.BindChildrenLength | src/binding.rs:96-118 | The bound list's length is the template list's length plus `k - 1` for each child spliced with `k` elements. |
| Binder.BindUnbound | src/binding.rs:55-87 | A template none of whose atoms is bound comes back unchanged. |
| Binder.BindChildrenUnbound | src/binding.rs:90-120 | A list of children none of whose atoms is bound comes back unchanged. |
| Binder.BindEmpty | src/binding.rs:34-36 | Binding with the empty map returns the template itself. |
| Binder.BindCases | src/binding.rs:55-87 | These cases follow the code: <br>- An unbound atom and every wildcard stay as they are. <br>- An atom bound to one tree becomes exactly that tree, which is not bound again. <br>- An atom bound to a sequence, outside a list, becomes `(Sequence ...)` of its elements. <br>- A child that is not spliced contributes exactly its own binding. |
| Rewriting.ReplaceRec | src/expression/mod.rs:117-138 | `replace_rec`, with its loop over the children of a non-matching list, returns exactly the tree and the flag of the pass `Rewrite`. |
| Rewriting.ReplaceAll | src/expression/mod.rs:80-83 | `replace_all` is the tree component of one pass. |
| Rewriting.ReplaceRepeated | src/expression/mod.rs:101-115 | The countdown loop from `limit = 1000` returns what `Repeat` gives with 1001 passes allowed. The panic becomes the `LimitReached` error. |
| Rewriting.ReplaceAtRoot | src/expression/mod.rs:62-64 | `replace` gives `Some` exactly when the root matches the pattern. Its value is then the template bound with that match's bindings. |
| Rewriting.RewriteMatchedRoot | src/expression/mod.rs:117-138 | A matching root is replaced by the bound template with the flag set. The replacement is not descended into. |
| Rewriting.RewriteChildrenItems | src/expression/mod.rs:122-131 | The children's loop keeps the number of children, and its `i`-th result is the pass applied to the `i`-th child. |
| Rewriting.RewriteChildrenFlag | src/expression/mod.rs:122-131 | The children's loop reports a change exactly when the pass on some child does. |
| Rewriting.RewriteUnmatchedRoot | src/expression/mod.rs:117-138 | When the root does not match, a non-list node comes back unchanged with the flag clear. A list keeps its length, its `i`-th child is the pass on the `i`-th child, and the flag is the OR of the children's flags. |
| Rewriting.NoChangeIsIdentity | src/expression/mod.rs:117-138 | A pass that reports no change returns its input. |
| Rewriting.NoChangeIsIdentityChildren | src/expression/mod.rs:122-131 | A children's pass that reports no change returns the children unchanged. |
| Rewriting.RepeatIsFirstStable | src/expression/mod.rs:101-115 | A successful result with `n` passes allowed is the tree after `k < n` passes, where pass `k` is the first that changes nothing. |
| Rewriting.RepeatFailsOnlyWhenAllChange | src/expression/mod.rs:101-115 | The limit error with `n` passes allowed comes only when every one of the first `n` passes changed the tree. |
| Rewriting.AllChangeMeansFailure | src/expression/mod.rs:101-115 | Conversely, when each of the first `n` passes changes the tree, `n` passes end in the limit error. |
| Rewriting.RepeatReachesFixpoint | src/expression/mod.rs:105-110 | What the repeated rewriting returns is a fixpoint. One more pass reports no change and returns it unchanged. |
| Rewriting.WildcardRuleNeverSettles | src/expression/mod.rs:101-115 | A rule whose pattern is `_`, `__`, `___` or `name_` rewrites every root, so every pass limit is reached. |
| Rewriting.ExampleBindAfterMatch | src/binding.rs:44-53 | Matching `(x (y z))` with `(_ a_)` gives `{a: (y z)}`, and binding the template `(a)` with it gives `((y z))`. |
| Rewriting.ExampleBindTwoAtoms | src/lib.rs:97-109 | The same match, with the template `(a b)` bound, gives `((y z) b)`. |
| Rewriting.ExampleReplace | src/expression/mod.rs:235-243 | `(x z)` with the rule `(x a_)` to `(y a)` becomes `(y z)`. |
| Rewriting.ExampleReplaceAll | src/expression/mod.rs:246-254 | One pass of that rule over `((x r) (x s))` gives `((y r) (y s))`, with a change reported. |
| Rewriting.ExampleReplaceRepeated | src/expression/mod.rs:257-265 | Repeating that rule on `(x (x (x z)))` gives `(y (y (y z)))`. |
| Parsing.SkipWs | src/expression/parser.rs:230-234 | Skipping whitespace stops at the first non-whitespace index or at the end, and passes only whitespace. |
| Parsing.AtomEnd | src/expression/parser.rs:106-129 | The atom loop stops at the first character that is a terminator or `_`, and passes only atom characters. |
| Parsing.ParseSuffix | src/expression/parser.rs:138-214 | The underscore-suffix readers fail only with `InvalidPattern`, and on success stop within the input. |
| Parsing.ParseAtomicAt | src/expression/parser.rs:106-136 | A successful atomic read consumes at least one character. |
| Parsing.AtomicAtUnderscore | src/expression/parser.rs:114-123 | When the run of atom characters meets `_`, the result is the suffix reader applied to the name read so far. |
| Parsing.AtomicAtTerminator | src/expression/parser.rs:109-135 | When the run meets a terminator, the result is the atom, or `InternalError` if the run is empty. |
| Parsing.ParseExprAt | src/expression/parser.rs:69-77 | A successful expression read consumes at least one character and stays within the input. |
| Parsing.ParseItems | src/expression/parser.rs:80-102 | A successful list read consumes at least the closing `)`. |
| Parsing.Parser.constructor | src/expression/parser.rs:40-50 | `Parser::new` draws the first character, so the cursor stands at index 0. |
| Parsing.Parser.Bump | src/expression/parser.rs:236-238 | `bump` advances the cursor by one character, and to the end-of-input state after the last one. |
| Parsing.Parser.ChIsWhitespace | src/expression/parser.rs:223-228 | True exactly when a current character exists and is whitespace. |
| Parsing.Parser.ChIsTerminator | src/expression/parser.rs:216-221 | True exactly at the end of the input, or on whitespace or a parenthesis. |
| Parsing.Parser.SkipWhitespace | src/expression/parser.rs:230-234 | The cursor ends at the first non-whitespace index from where it stood. |
| Parsing.Parser.Parse | src/expression/parser.rs:53-56 | `parse` skips leading whitespace and returns exactly what the reader specification reads from there. |
| Parsing.Parser.ParseExpression | src/expression/parser.rs:69-77 | `parse_expression` returns what `ParseExprAt` reads and stops where it stops. |
| Parsing.Parser.ParseList | src/expression/parser.rs:80-102 | The `parse_list` loop returns the list that `ParseItems` reads, or its error, and stops after the `)`. |
| Parsing.Parser.ParseAtomic | src/expression/parser.rs:106-136 | The `parse_atomic` loop returns what `ParseAtomicAt` reads and stops where it stops. |
| Parsing.Parser.ParseUnderscore | src/expression/parser.rs:114-123 | Past the first underscore, the blank or the pattern reader gives what the suffix specification reads with one underscore seen. |
| Parsing.Parser.ParseBlank | src/expression/parser.rs:138-151 | `parse_blank` reads the suffix with an empty name and one underscore seen. |
| Parsing.Parser.ParseBlankSeq | src/expression/parser.rs:153-166 | `parse_blank_seq` reads the suffix with an empty name and two underscores seen. |
| Parsing.Parser.ParseBlankNullSeq | src/expression/parser.rs:168-175 | `parse_blank_null_seq` reads the suffix with an empty name and three underscores seen. |
| Parsing.Parser.ParsePattern | src/expression/parser.rs:177-190 | `parse_pattern` reads the suffix of the name with one underscore seen. |
| Parsing.Parser.ParsePatternSeq | src/expression/parser.rs:192-205 | `parse_pattern_seq` reads the suffix of the name with two underscores seen. |
| Parsing.Parser.ParsePatternNullSeq | src/expression/parser.rs:207-214 | `parse_pattern_null_seq` reads the suffix of the name with three underscores seen. |
| Parsing.FromStr | src/expression/mod.rs:201-208 | `from_str` builds a parser over the string and returns exactly `Parse` of it. |
| Parsing.ParseExprErrors | src/expression/parser.rs:69-77 | Reading an expression reports `EmptyInput` exactly at the end of the input. It never reports `InternalError` where no whitespace stands. |
| Parsing.ParseItemsErrors | src/expression/parser.rs:80-102 | Inside a list, neither `EmptyInput` nor `InternalError` is ever reported. |
| Parsing.ParseErrors | src/expression/parser.rs:53-77 | `parse` reports `EmptyInput` exactly on all-whitespace input, and `UnbalancedParens` when the first other character is `)`. It never reports `InternalError`. |
| Parsing.UnclosedExpr | src/expression/parser.rs:69-77 | An expression with no `)` after it either succeeds or fails with `UnbalancedParens`. It can also fail with `InvalidPattern`, but only when `_` may occur. |
| Parsing.UnclosedList | src/expression/parser.rs:85-101 | A list that is never closed fails with `UnbalancedParens`. It fails with `InvalidPattern` instead only when `_` may occur. |
| Parsing.AtomEndAt | src/expression/parser.rs:106-129 | The atom loop stops exactly at the first character that is not an atom character. |
| Parsing.ParseWord | src/expression/parser.rs:106-214 | A name followed by `n <= 3` underscores and a terminator reads as the atom when `n = 0`. Otherwise it reads as the wildcard with `n` underscores, which is unnamed exactly when the name is empty. |
| Parsing.ParseBadSuffix | src/expression/parser.rs:138-214 | A run of more than three underscores, or an atom character after the run, gives `InvalidPattern`. |
| Parsing.ParsedAtom | src/expression/parser.rs:106-136 | A read atom is the maximal non-empty run of atom characters from its start, and a terminator or the end follows it. |
| Parsing.ShowStart | src/expression/mod.rs:176-199 | The rendering of a well-formed tree is non-empty, and starts with neither whitespace nor `)`. |
| Parsing.ParseShowBlank | src/expression/parser.rs:138-175 | The rendering of an unnamed wildcard, followed by a terminator, reads back as that wildcard. |
| Parsing.ParseNamedWildcard | src/expression/parser.rs:177-214 | A name followed by one to three underscores and a terminator reads back as the named wildcard. |
| Parsing.ParseShowPattern | src/expression/parser.rs:177-214 | The rendering of a named wildcard, followed by a terminator, reads back as that wildcard. |
| Parsing.ParseShowAt | src/expression/parser.rs:69-136 | The rendering of a well-formed tree, followed by a terminator or the end, reads back as that tree and stops right after it. |
| Parsing.ParseShowList | src/expression/parser.rs:80-102 | The rendering of a list of well-formed children reads back as that list. |
| Parsing.ParseChild | src/expression/parser.rs:96-98 | Inside a list, the rendering of a well-formed child, followed by a terminator, is read as that child by the expression reader. |
| Parsing.ParseItemsStep | src/expression/parser.rs:96-99 | A child read inside a list is appended to the children, and the loop continues after it. |
| Parsing.ParseItemsSpace | src/expression/parser.rs:86 | Whitespace between children is skipped. |
| Parsing.ParseShowItems | src/expression/parser.rs:84-101 | The rendering of the children and the `)` reads back as exactly those children, appended in order. |
| Parsing.ParseShowItemsMany | src/expression/parser.rs:84-101 | With two or more children, the first is read, the space skipped, and the rest read as the remaining children. |
| Parsing.ParseItemsLast | src/expression/parser.rs:88-99 | The last child followed by `)` ends the list with that child appended. |
| Parsing.ParseItemsClose | src/expression/parser.rs:88-93 | A `)` where a child could start closes the list. |
| Parsing.ParseItemsCons | src/expression/parser.rs:84-101 | A child followed by a space: the list reads on from after the space with the child appended. |
| Parsing.ShowItemsSplit | src/expression/mod.rs:181-188 | The rendering of two or more children is the first child's rendering, a space, and the rendering of the others. |
| Parsing.RoundTrip | src/expression/parser.rs:53-214 | Parsing the rendering of any tree gives back that tree. The tree's atom and pattern names must be non-empty runs of characters other than whitespace, parentheses and `_`. Any text after the rendering that starts with a terminator is never read. |
| Parsing.ExampleNestedList | src/expression/mod.rs:229-232 | `(a b (c d))` parses as the nested list that renders as `(a b (c d))`. |
| Parsing.ExampleErrors | src/expression/parser.rs:69-214 | `(a ` is `UnbalancedParens`, the empty string is `EmptyInput`, and `x____` and `a_b` are `InvalidPattern`. |

## Left out

- Whitespace is a fixed table of the Unicode White_Space characters, which is the set `char::is_whitespace` uses. Unicode version drift is not modelled.
- The `Parser` is generic over any character iterator. The model draws from a string, which is the only iterator `from_str` gives it.
- The `panic!` of `replace_repeated` is the error result `LimitReached` rather than a crash.
- The `Clone` implementation is not modelled: Dafny trees are values, so a copy is the same value.
- `HashMap` hashing and iteration order are not modelled. Bindings are a Dafny `map`, and `InsertAll` copies keys in an arbitrary order, which gives the same map.
- Lifetimes and borrowed slices in `Binding` are not modelled: a binding holds copied trees.
- The `fmt::Formatter`/`write!` plumbing is not modelled: rendering is the string function `Show` and the method `Format`.
- `src/lib.rs` has no logic. Its documentation example is stated as `Rewriting.ExampleBindTwoAtoms`.
- `examples/generic.rs` is a `main` that prints results, and is not part of this model.
- The cost of backtracking is not modelled; only termination is proved.
- Matching.MatchedFits: soundness is stated only for patterns with no `___` or `name___` inside a list. On an empty remainder such a child ends the list match without looking at the pattern after it, so `()` matches `(___ x)` without being an instance of it (`Matching.ExampleNullSeqIgnoresRest`).
- Parsing.Parser.ParsePattern: requires a non-empty name. `parse_atomic` calls it only with one, because an empty name goes to `parse_blank`.
- Parsing.Parser.ParsePatternSeq: requires a non-empty name, for the same reason.
- Parsing.Parser.ParsePatternNullSeq: requires a non-empty name, for the same reason.
- Parsing.Parser.ParseUnderscore: this method does not appear by that name in the source. It is the underscore branch of `parse_atomic`, split out as its own method.
