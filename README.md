# libre regular expressions, modelled in Dafny

This project models `re.c`, a small regular-expression library. The library
has four parts:

- a recursive-descent **parser** (`regexp`, `subexp`, `atom`, `parse`) turns
  a pattern into a tree of six node kinds: character, alternation, star,
  plus, option and concatenation;
- a Thompson-style **compiler** (`addstate`, `transition`, `tonfa`) appends
  states to a growing table. Each state has at most two out-edges, `one` and
  `two`, and the order in which they are filled is the order of priority;
- a backtracking **matcher** (`charmatch`, `domatch`, `re_match`) tries `one`
  and then `two` from the saved input position. It accepts as soon as it
  reaches a state with no edges;
- `re_compile` glues them together: it creates state 0 and compiles the
  parsed tree from it.

The modules follow that structure:

| file | module | what it holds |
|---|---|---|
| `syntax.dfy` | `Syntax` | bytes of a C string (`CChar`, never NUL) and the tree `Re` |
| `parser.dfy` | `Parser` | the parser as functions over a cursor position, the parenthesis-depth account of which patterns parse, and a printer `Unparse` that inverts `Parse` |
| `automaton.dfy` | `Automaton`, `Wiring` | the state table as values; `Link` is `transition`, `Build` is `tonfa`, and the wiring each arm leaves |
| `nfa.dfy` | `Compiler` | `struct re_nfa` as the class `Nfa`, whose methods update its table in place and are proved to leave exactly the table `Build` describes |
| `matcher.dfy` | `Matcher` | `CharMatch`, the fuel-bounded `DoMatch`, and the path relation `Accepts` it decides |
| `semantics.dfy` | `Semantics` | the language of a tree (`Lang`), and the proof that the compiled table accepts exactly the inputs with a prefix in that language |
| `engine.dfy` | `Engine` | `re_compile` and what `re_match(re_compile(p), s)` answers |
| `fixtures.dfy` | `Fixtures` | the self-test table of `test.c` and a few patterns that show how the parser reads them |

The end-to-end statement is `Engine.MatchMeaning`. Whenever `domatch`
returns, `re_match(re_compile(p), s)` is true exactly when some prefix of `s`
is in the language of `p`. The proof has three parts:

- `Parse` succeeds exactly on balanced patterns, and printing the tree gives
  the pattern back;
- the table `tonfa` builds has an accepting path exactly for those prefixes
  (`Semantics.BuildCorrect`);
- whenever `domatch` returns, it has decided whether such a path exists
  (`Matcher.DoMatchDecides`).

Modelling choices:

- A pointer into the pattern is a position in a `seq<CChar>`. The
  terminating NUL is the end of the sequence.
- A `struct st *` is an index into the table. A NULL edge is `None`.
- The `NFA_EPSILON` label is its own constructor, `Epsilon`, so it can never
  be confused with a byte.
- The C `assert(false)` in `transition` (a third edge) is the precondition
  `HasRoom`. `tonfa` never reaches it because of `Extends`: `start` comes in
  without edges, and every exit `Build` returns has no edges either, so each
  arm's transitions find room.
- `domatch` need not terminate. `DoMatch` therefore takes a recursion bound,
  and every statement about the matcher is conditional on it returning.

Three facts about `re.c` that a reader might not expect:

- `?` prefers to skip its operand. The option arm's first transition is
  the edge from `start` to the exit, so it becomes `one` and is tried first
  (`Wiring.OptionalWiring`).
- There is no `.`, no character class, no range and no escape: every byte
  other than `( ) | * + ?` is a literal.
- `re_match` never tries a later start offset, so a match is anchored at
  the start of the input (`Matcher.AcceptsExtend`).

Some lemmas are steps of the proofs above and have no row below:
`Parser.DepthSplit` and `Parser.NoDipJoin` (parenthesis depth over
adjacent stretches), the text-splitting lemmas of the parser
(`SliceSplit`, `ItemsText`, `AltText`, `GroupText`, `ItemFirst`), the
single parser steps `LoopStep`, `AlternativeStep` and `GroupStep` (one
turn of the loop of `regexp`, its `|` branch, and the `(` case of `atom`),
`Wiring.KeepsTrans`, and `Wiring.AltBuilt`, `StarBuilt`, `PlusBuilt` and
`OptionalBuilt`, which unfold one arm of `Build` into its transitions.

## Model

| member | source | states |
|---|---|---|
| Parser.Quantified | re.c:259-276 | the node built around an atom followed by `*`, `+` or `?` is a star, plus or option node holding exactly that atom |
| Parser.Regexp | re.c:207-249 | the cursor only moves forward and stays within the pattern |
| Parser.Concatenation | re.c:217-248 | the `while` loop of `regexp` and the `|` split after it never move the cursor back or past the end |
| Parser.Subexp | re.c:251-277 | a successful `subexp` consumes at least one byte; the cursor stays within the pattern |
| Parser.Atom | re.c:279-310 | a successful `atom` consumes at least one byte; the cursor stays within the pattern |
| Parser.Parse | re.c:312-316 | `parse` succeeds exactly when the parentheses balance, and then the tree has the parser's shape and prints back to the whole pattern (nothing is dropped or reordered) |
| Parser.ParseExactly | re.c:312-316 | `parse` returns tree `t` exactly when `t` has the parser's shape (quantifiers bound to the item before them included) and prints to the pattern: the tree is determined by the pattern |
| Parser.ParseUnparse | re.c:207-316 | parsing the printed text of a tree of the parser's shape gives that tree back |
| Parser.RegexpParse | re.c:207-249 | `regexp` reads the text of such a tree back to it, when the text ends the input or (trailing allowed) is followed by `)` |
| Parser.ConcatParse | re.c:217-235 | the same for a tree with no `|` at its top |
| Parser.AltParse | re.c:237-248 | the same for an alternation: the loop stops at `|`, and the right side is the recursive `regexp` |
| Parser.ConcatenationParse | re.c:217-231 | the loop of `regexp` reads the text of a run of items back to those items, pushed in order, when no quantifier byte follows an item left without one |
| Parser.LastItemParse | re.c:217-231 | the last turn of that loop pushes the last item of the run |
| Parser.ItemParse | re.c:251-277 | `subexp` reads an item's text back to the item, taking the quantifier byte when the item has one |
| Parser.AtomParse | re.c:279-310 | `atom` reads a literal byte or a parenthesised group back to that atom |
| Parser.ParseIffBalanced | re.c:217-235 | the top-level `regexp` succeeds exactly on balanced patterns: an unmatched `)` or an unterminated `(` makes it fail |
| Parser.ParseConsumesAll | re.c:217-235 | a successful top-level parse leaves the cursor at the end of the pattern |
| Parser.RegexpStops | re.c:207-249 | where `regexp` stops and whether it fails, in terms of parenthesis depth: it stops at the end, or (trailing allowed) at the first `)` that closes more than it opens |
| Parser.ConcatenationStops | re.c:217-248 | the same for the loop of `regexp` resumed at any position with any children already pushed |
| Parser.SubexpStops | re.c:251-277 | a `subexp` either fails at the end or at `)`, or consumes a balanced stretch |
| Parser.AtomStops | re.c:279-310 | an `atom` fails at the end, at `)`, or on an unterminated `(`; otherwise it consumes a balanced stretch |
| Parser.RegexpShape | re.c:237-248 | every tree `regexp` returns is right-associated alternation of concatenations |
| Parser.ConcatenationShape | re.c:217-248 | the children pushed by the loop are items (atoms, each with at most one quantifier), a literal quantifier byte among them always follows a quantified item, and `|` makes `Alt(concatenation so far, rest)` |
| Parser.SubexpShape | re.c:259-276 | `subexp` builds an item; when the byte after the atom is `*`, `+` or `?` it is always taken, so an unquantified item is never followed by a quantifier byte; a literal atom is the byte under the cursor |
| Parser.AtomShape | re.c:292-308 | an atom is a literal byte or a parenthesised alternation |
| Parser.RegexpRoundTrip | re.c:207-249 | printing the tree of a balanced stretch gives that stretch back |
| Parser.ConcatenationRoundTrip | re.c:217-248 | the children pushed so far followed by the rest of the stretch print back to the stretch |
| Parser.AlternativeRoundTrip | re.c:237-248 | after `|`, the alternation of the children so far and the right side prints back to the stretch |
| Parser.SubexpRoundTrip | re.c:251-277 | a quantified atom prints back to the bytes `subexp` consumed |
| Parser.AtomRoundTrip | re.c:279-310 | an atom prints back to the bytes `atom` consumed, parentheses included |
| Parser.LiteralRun | re.c:217-231 | a run of plain bytes not followed by a quantifier pushes one character node per byte |
| Automaton.ValidAppend | re.c:62-76 | appending edgeless states keeps every edge pointing into the table |
| Automaton.AppendSecondEpsilon | re.c:62-76 | appending edgeless states keeps the two-edge invariant |
| Automaton.Link | re.c:78-90 | `transition` appends the new edge after the existing ones, so call order is priority order; it changes no other state and overwrites nothing; every state keeps at most two edges, with `two` only after `one`; a second edge that is epsilon keeps every second edge epsilon |
| Automaton.Build | re.c:93-200 | `tonfa` only appends states, only gives edges to `start` and the new states, keeps the two-edge invariant (so its `assert(false)` is never reached), and returns `start` or a new state, with no edges |
| Automaton.BuildAlt | re.c:103-127 | the same for the alternation arm |
| Automaton.BuildStar | re.c:128-150 | the same for the star arm |
| Automaton.BuildPlus | re.c:151-170 | the same for the plus arm |
| Automaton.BuildOptional | re.c:171-190 | the same for the option arm |
| Automaton.BuildAll | re.c:191-198 | the same for the concatenation arm; an empty concatenation returns `start` and the table unchanged (the threading of each child's exit into the next child is stated by `Wiring.ConcatWiring`) |
| Wiring.CharWiring | re.c:99-102 | a character compiles to exactly one new, edgeless state, the exit, reached from `start` by its byte; no other state changes |
| Wiring.AltWiring | re.c:103-127 | `start` enters the left side by `one` and the right side by `two`; each side's exit has only an epsilon edge to the new exit |
| Wiring.AltKeeps | re.c:117-125 | the four final transitions leave both compiled sides untouched elsewhere |
| Wiring.StarWiring | re.c:128-150 | the operand's exit loops back by `one` and leaves by `two` (greedy); `start` enters the loop by `one` and skips it by `two` |
| Wiring.PlusWiring | re.c:151-170 | as for star, but `start` has only the edge into the operand: no way round it |
| Wiring.OptionalWiring | re.c:171-190 | `start` skips to the exit by `one` and enters the operand by `two`, so skipping is preferred |
| Wiring.ConcatWiring | re.c:191-198 | compiling a concatenation is compiling all but its last child, then the last child from the exit reached; compiling that last child leaves every edge of the earlier children in place |
| Compiler.Nfa.constructor | re.c:372 | `vec_init`: an empty table |
| Compiler.Nfa.AddState | re.c:62-76 | appends one edgeless state and returns its index, the old size |
| Compiler.Nfa.Transition | re.c:78-90 | the table afterwards is `Link` of the table before |
| Compiler.Nfa.Match | re.c:356-360 | whenever `domatch` from state 0 returns, it answers whether an accepting path exists |
| Compiler.Nfa.ToNfa | re.c:93-200 | the table and returned state are exactly `Build` of the table before |
| Compiler.Nfa.ToNfaAlt | re.c:103-127 | the alternation arm leaves exactly `Build` of the table before |
| Compiler.Nfa.JoinAlt | re.c:117-125 | the four transitions, in source order, applied to the table |
| Compiler.Nfa.ToNfaStar | re.c:128-150 | the star arm leaves exactly `Build` of the table before |
| Compiler.Nfa.ToNfaPlus | re.c:151-170 | the plus arm leaves exactly `Build` of the table before |
| Compiler.Nfa.ToNfaOptional | re.c:171-190 | the option arm leaves exactly `Build` of the table before |
| Compiler.Nfa.ToNfaConcat | re.c:191-198 | the `for` loop leaves exactly `BuildAll` of the table before |
| Matcher.CharMatch | re.c:318-331 | an epsilon edge is always taken and consumes nothing; a literal edge is taken exactly when the next byte equals it, and consumes it; at the end of input no literal matches |
| Matcher.DoMatch | re.c:333-354 | `domatch`: at a state with no `one` it accepts; otherwise it tries `one`, then `two` from the saved position without checking `two`'s label; it answers `OutOfFuel` where the C recursion would still be running. Contract: an `Accept` on a table whose second edges are all epsilon is backed by an accepting path of at most `fuel` edges |
| Matcher.DoMatchMonotone | re.c:333-354 | more recursion depth never changes an answer `domatch` has given |
| Matcher.DoMatchComplete | re.c:333-354 | when `domatch` answers false, no accepting path exists, however long; this uses the fact that every second edge is epsilon, since `domatch` follows `two` without checking its label |
| Matcher.DoMatchDecides | re.c:333-354 | whenever `domatch` returns, true exactly when an accepting path exists |
| Matcher.EdgelessAccepts | re.c:338-341 | a state with no edges accepts whatever input remains |
| Matcher.AcceptsExtend | re.c:338-341 | an accepting path stays one when more input follows: the match is anchored at the start only |
| Semantics.Sound | re.c:93-200 | in any table that keeps a compiled fragment, a path from its start reaches its exit only over a stretch in the tree's language |
| Semantics.SoundAlt | re.c:103-127 | the same for an alternation, through either side |
| Semantics.SoundLeft | re.c:103-127 | a path through the left side matches the left language |
| Semantics.SoundRight | re.c:103-127 | a path through the right side matches the right language |
| Semantics.SoundStar | re.c:128-150 | a path through a star matches zero or more pieces |
| Semantics.SoundPlus | re.c:151-170 | a path through a plus matches one or more pieces |
| Semantics.SoundOptional | re.c:171-190 | a path through an option matches nothing or the operand |
| Semantics.SoundAll | re.c:191-198 | a path through a concatenation matches the children in order |
| Semantics.LoopSound | re.c:138-148 | a path entering a loop body leaves the loop after a repetition of the body |
| Semantics.TailSound | re.c:138-148 | a path from the loop body's exit leaves after a repetition of the body |
| Semantics.SoundSide | re.c:117-120 | a path through a side whose exit has one epsilon edge matches that side |
| Semantics.Complete | re.c:93-200 | conversely, every stretch in the tree's language gives a path from the start to the exit |
| Semantics.CompleteAlt | re.c:103-127 | the same for an alternation |
| Semantics.CompleteLeft | re.c:122-123 | a stretch of the left language is reached through `one` |
| Semantics.CompleteRight | re.c:124-125 | a stretch of the right language is reached through `two` |
| Semantics.CompleteStar | re.c:128-150 | every repetition of the operand, including none, has a path |
| Semantics.CompletePlus | re.c:151-170 | every repetition of one or more has a path |
| Semantics.CompleteOptional | re.c:171-190 | both the empty stretch and an operand match have a path |
| Semantics.CompleteAll | re.c:191-198 | children matched in order have a path |
| Semantics.CompleteSide | re.c:117-120 | a match of a side has a path to the shared exit |
| Semantics.TailComplete | re.c:138-148 | a repetition of the body has a path from the body's exit out of the loop |
| Semantics.BuildCorrect | re.c:380-381 | the table compiled from state 0 has an accepting path over `s` exactly when some prefix of `s` is in the tree's language |
| Semantics.BuildSound | re.c:380-381 | accepting path implies a matching prefix |
| Semantics.BuildComplete | re.c:380-381 | a matching prefix implies an accepting path |
| Semantics.LangAllAppend | re.c:191-198 | matches of two child sequences in a row match their concatenation |
| Semantics.LangAllSplit | re.c:191-198 | a match of a concatenation splits into matches of its parts |
| Semantics.LangLiteral | re.c:299-308 | a run of character nodes matches exactly the bytes it was parsed from |
| Semantics.LangSingle | re.c:191-198 | a one-child concatenation matches what its child matches |
| Engine.Compiled | re.c:380-381 | the table `re_compile` builds is valid, keeps every second edge epsilon, and has the entry state 0 |
| Engine.Compile | re.c:362-384 | NULL and no automaton exactly when the pattern does not parse; otherwise a new automaton whose table is the compiled tree |
| Engine.MatchMeaning | re.c:356-360 | whenever `re_match(re_compile(p), s)` returns, true exactly when some prefix of `s` is in the language of `p` |
| Engine.EmptyPatternMatchesAll | re.c:233-234 | the empty pattern compiles to one edgeless state 0, which matches every input |
| Engine.EmptyLoopDiverges | re.c:139 | for `()*` the operand's exit is its entry, which loops to itself first, so `domatch` never returns, whatever the input |
| Engine.EmptyLoopParses | re.c:292-300 | `()*` parses to a star of the empty concatenation |
| Engine.EmptyLoopTable | re.c:128-150 | the table compiled for `()*` |
| Engine.SelfLoop | re.c:345 | at a state whose `one` is an epsilon edge to itself, no recursion bound is enough |
| Fixtures.GroupedLanguage | test.c:12 | the tree of `u(v|w)x` matches exactly `uvx` and `uwx` |
| Fixtures.GroupedSpells | test.c:12 | a match of `u(v|w)x` spells `uvx` or `uwx` |
| Fixtures.GroupedMatches | test.c:12 | `uvx` and `uwx` are matches of `u(v|w)x` |
| Fixtures.EitherSpells | re.c:103-127 | an alternation of two literal runs matches exactly one of them |
| Fixtures.GroupedParses | test.c:12 | the pattern `u(v|w)x` of plain bytes parses to that tree |
| Fixtures.GroupThenRun | re.c:217-231 | a parenthesised alternation of two plain runs, followed by a plain run, parses to the expected children |
| Fixtures.GroupBody | re.c:292-300 | the parenthesised alternation parses to the alternation of two literal runs |
| Fixtures.RunBeforeClose | re.c:282-283 | inside parentheses, a plain run stops at `)` |
| Fixtures.GroupedMatch | test.c:12-19 | whenever `re_match` returns on `u(v|w)x`, it accepts exactly the inputs beginning with `uvx` or `uwx` |
| Fixtures.FunFixture | test.c:12-19 | `this (is|was) fun` compiles; whenever `re_match` returns, it accepts `this is fun` and `this was fun` and rejects `this fun` and `thi was is fun` |
| Fixtures.FunAccepts | test.c:15-16 | the two inputs of the table that must match are never rejected |
| Fixtures.FunRejects | test.c:17-18 | the two inputs of the table that must not match are never accepted |
| Fixtures.QuantifierAsLiteral | re.c:259-266 | `a**` is a star of `a` followed by a literal `*`: a second quantifier is an atom of its own |
| Fixtures.AltRightAssociative | re.c:237-248 | `a|b|c` parses to `a|(b|c)` |
| Fixtures.UnbalancedFails | re.c:292-297 | `(ab` and `a)` do not parse |

## Left out

- `re_free` and every `malloc`, `free` and `vec_push`, with the `mkre` paths for an allocation that fails: memory management, not behaviour. The tree is never freed in `re.c`, which is a leak and is not modelled.
- `re.h` only declares the API. It holds no behaviour.
- `test.c` reads patterns and input lines and prints results. Only its fixture table (test.c:12-19) is modelled, as `Fixtures.FunFixture`.
- The comparison at re.c:325 of a possibly signed `char` with a `uint16_t` label is not modelled: input and labels are bytes 1 to 255 and compare as such.
- Matcher.DoMatch: termination of `domatch` is not claimed. A loop whose body can match the empty string leaves an epsilon cycle (`Engine.EmptyLoopDiverges`). `DoMatch` bounds the depth of recursion, and every statement about the matcher holds only when it returns.
- Fixtures.FunFixture: states only what the answer is whenever `re_match` returns, not that it returns. For this pattern it always does, but that bound is not proved.
- Fixtures.GroupedMatch: likewise states only what the answer is whenever `re_match` returns.
- Compiler.Nfa.Match: likewise conditional on `domatch` returning.
- The `assert(state != NULL)` in `addstate` and the `assert(s)` in `re_compile` are allocation or NULL-pointer checks. They have no counterpart: a sequence cannot be NULL.
- The recursion and `for` loop of `tonfa` use `size_t` indices. Indices are unbounded here, so a table of more than `SIZE_MAX` states is not modelled.
