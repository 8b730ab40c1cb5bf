# geoggle quiz core in Dafny

This project models the quiz logic of the geoggle App component (`src/App.tsx`).

The quiz works like this:
- A challenge asks for the countries whose name has some shape.
  - The six templates are exact length, contains a vowel, contains a vowel exactly once, ends with a letter, begins with a letter, and "members of". The last has no implementation.
- `checkChallenge` draws the parameter. It collects the matching names in dataset order.
- `generateChallenge` retries until between two and eight names match. While more than eight match, it narrows the set with up to two randomly chosen boolean attributes from `paramReducers`. It records each filter in `searcherArray`.
- The shown heading appends one clause per recorded filter.
- `handleSubmit` checks a guess by exact, case-sensitive membership. A hit removes the guess from the remaining answers and counts it.

## Modules
- `Text` (`text.dfy`): the string operations the component uses, all on ASCII characters:
  - lower-casing and upper-casing;
  - `includes`, `startsWith` and `endsWith`;
  - the single-occurrence regular expression;
  - `replace` with a one-character pattern;
  - decimal `toString`;
  - `join` and `slice(0, -1)`.
- `Sequences` (`sequences.dfy`): subsequences and duplicate-freedom. Order-preserving selection produces both.
- `Countries` (`countries.dfy`): the dataset, the name and attribute tests, selection (`for…in` with `push`, and `filter`), and guess removal.
- `Predicates` (`predicates.dfy`): the challenge catalogue and `checkChallenge`. Its `for…in` loops are kept as loops.
- `Generator` (`generator.dfy`): the loop as functions. `AttemptOf` is one pass of the `do…while` loop, `Passes` is the outcome of every supplied draw, and `Loop` and `RunLoop` are the loop as a whole.
- `Display` (`display.dfy`): the `addedText` clauses and the heading.
- `Game` (`game.dfy`): the class `Quiz`. Its fields are:
  - the component's state: `challenge`, `answers`, `correctAnswer`, `numberOfAnswers`, `correctAnswerCount`, `notHadFirstGuess`;
  - the module-level variables `paramReducer` and `searcherArray`.

  Its methods `GenerateChallenge` and `HandleSubmit` update that state in place.
  - `GenerateChallenge` resets the guess state and runs the loop, `Retry`.
  - Each pass of `Retry` is `RunPass`.
  - The first part of a pass, drawing a challenge and narrowing its answers, is `DrawAndNarrow`.

## Randomness
The `Math.random` helpers (src/App.tsx:80-94) become values the caller supplies, with the same ranges:
- a challenge index in [0, 6);
- a length in [3, 10];
- a vowel index in [0, 5);
- a character code in [65, 90], lower-cased;
- two reducer indices in [0, 8).

A `Draw` holds the values for one pass of the loop. `GenerateChallenge` consumes a sequence of draws, one per pass.

## How the loop behaves
- The `continue` in the abandonment branch (src/App.tsx:235) skips `attempt++` (src/App.tsx:265).
  - So abandoned passes do not count toward the cap of 100.
  - A run of abandoning draws never ends the loop (`AbandonedPassesAreNotCounted`).
  - The loop is therefore not guaranteed to finish: passes that are all abandoned never bring the counter to 100.
- A membersOf draw (one challenge index in six) always gives a counted pass with no answers (`MembersOfPassIsEmpty`).
  - So 100 such draws make the loop give up at the cap (`MembersOfDrawsGiveUp`), and with random draws the loop ends with probability 1.
  - Only a draw sequence whose passes are almost all abandoned, with fewer than 100 counted passes and no accepted one, runs forever.
- The model adds one outcome of its own, `OutOfDraws`, for when the supplied draws run out.

## Other points where the model follows the code
- "japan" contains two a's, so "Japan" is never an answer for 'a' (`JapanIsNoSingleA`); "Chad" is (`ChadIsSingleA`).
- The `if (paramReducer)` guards (src/App.tsx:223, 240) always hold, because every entry of `paramReducers` is a non-empty string. The model always records the filter.
- The clause mapping keeps its two quirks:
  - `isIslamicCooperationMember` yields the Non-Aligned Movement text;
  - `isNonAlignedMember` yields nothing.
- The `" and "` case of the clause mapping can never fire, since no filter has that name. It is kept as written.
- Each of the six challenge types has exactly one entry in `challenges`. A `Challenge` therefore holds its type and computes its template from it.

## Model

| member | source | states |
|---|---|---|
| Text.Lower | src/App.tsx:117 | `toLowerCase`: the same length, each character lower-cased (ASCII) |
| Text.Upper | src/App.tsx:258 | `toUpperCase`: the same length, each character upper-cased (ASCII) |
| Text.ReplaceFirst | src/App.tsx:256-258 | definition of `replace` with a one-character pattern, scanning for its first occurrence; its meaning is stated by `Text.ReplaceFirstSpec` |
| Text.Decimal | src/App.tsx:257 | `toString` of the count: a non-empty string of digits with no leading zero unless the count is 0; `Text.DecimalRoundTrip` reads it back |
| Text.Join | src/App.tsx:332 | `join` of a one-element list is that element; `Text.JoinSnoc` gives every longer list |
| Text.StartsWith | src/App.tsx:147 | definition of `startsWith`: the text's first characters are the prefix |
| Text.EndsWith | src/App.tsx:138 | definition of `endsWith`: the text's last characters are the suffix |
| Text.SingleOccurrence | src/App.tsx:126-129 | definition of the shape the RegExp accepts: a position holding v with no v before or after it; `Text.SingleOccurrenceIffCountOne` states its meaning |
| Text.SingleOccurrenceIffCountOne | src/App.tsx:123-134 | the regex shape `^([^v]*)(v)([^v]*$)` (a prefix and a suffix without v around one v) holds exactly when v occurs once |
| Text.ReplaceFirstSpec | src/App.tsx:256-258 | `replace` with a one-character pattern changes only its first occurrence, and leaves the text unchanged when the pattern is absent |
| Text.DecimalRoundTrip | src/App.tsx:257 | the decimal text of the count reads back as the count |
| Text.JoinSnoc | src/App.tsx:332 | joining one more clause appends the separator and that clause |
| Text.DropLast | src/App.tsx:332 | `slice(0, -1)` removes exactly the final character |
| Countries.Flagged | src/App.tsx:229 | definition of `countriesData[country][searcher] === true`: the record exists and holds the boolean true under that key |
| Countries.Holds | src/App.tsx:105-152 | definition of the name tests of checkChallenge (`length ===`, `includes`, the RegExp, `endsWith`, `startsWith`, each on the lower-cased name except the length) and of the filter test at src/App.tsx:229; the five answer lemmas of `Predicates` and `Countries.SelectMembers` state their meaning |
| Countries.Select | src/App.tsx:105-111 | definition of the `for…in`/`push` loops and of `.filter`: the names of the input that pass the test, in input order; its meaning is stated by `Countries.SelectMembers` and `Countries.SelectIsSubsequence` |
| Countries.Without | src/App.tsx:305 | definition of `answers.filter((answer) => answer !== input)`; its meaning is stated by `Countries.WithoutMembers` and `Countries.WithoutLength` |
| Countries.SelectMembers | src/App.tsx:228-230 | a name survives a selection exactly when it is in the input and passes the test; a filter keeps only names whose record has the attribute `=== true`, so a missing attribute does not match |
| Countries.SelectAll | src/App.tsx:105-110 | a test that every name passes selects the whole list, in order |
| Countries.SelectIsSubsequence | src/App.tsx:244-246 | every selection or filter returns a subsequence of its input |
| Countries.WithoutMembers | src/App.tsx:305 | removal keeps every other answer and drops every copy of the guess |
| Countries.WithoutLength | src/App.tsx:302-306 | removing a present guess shortens the list, by exactly one in a duplicate-free list; removing an absent one changes nothing |
| Predicates.Letter | src/App.tsx:93-94 | the drawn letter is a lower-case a-z, the code plus 32 |
| Predicates.Collect | src/App.tsx:105-110 | the `for…in` loop pushes exactly the names that pass the test, in dataset order |
| Predicates.Template | src/App.tsx:52-77 | definition of each challenge's description: "X", the wording up to the parameter, "*", and the wording after it; `Generator.TemplateShape` states its shape |
| Predicates.Wording | src/App.tsx:52-77 | definition of the wording of each description around its two placeholders, with the source's text |
| Predicates.CriterionFor | src/App.tsx:104-152 | definition of the test each challenge type's branch of the switch applies with its drawn parameter |
| Predicates.ReplacementFor | src/App.tsx:104-154 | definition of the `replacementValue` each branch assigns (lines 106, 115, 124, 136, 145), and null in the default branch (line 154) |
| Predicates.Shown | src/App.tsx:258 | definition of `String(replacementValue).toUpperCase()`: a number's decimal text, a string upper-cased, null as "NULL" |
| Predicates.Candidates | src/App.tsx:97-157 | definition of the answers checkChallenge computes for a challenge type and drawn parameter; membersOf gives none; the per-type lemmas below state what each answer list holds |
| Predicates.CheckChallenge | src/App.tsx:97-157 | answers and replacement value are those of the drawn challenge type and parameter; membersOf gives no answers and null |
| Predicates.CandidatesFromDataset | src/App.tsx:97-157 | every answer list is a duplicate-free subsequence of the dataset's names |
| Predicates.MembersOfAnswers | src/App.tsx:153-154 | membersOf returns no answers and a null parameter |
| Predicates.ExactLengthAnswers | src/App.tsx:105-113 | the length lies in [3, 10] and a name is an answer exactly when it has that length |
| Predicates.ContainVowelAnswers | src/App.tsx:114-122 | the vowel is one of a, e, i, o, u and a name is an answer exactly when its lower-cased form contains it |
| Predicates.SingleOccurrenceVowelAnswers | src/App.tsx:123-134 | a name is an answer exactly when its lower-cased form contains the vowel exactly once |
| Predicates.CanadaIsNoSingleA | src/App.tsx:123-134 | "Canada" is never an answer for 'a' |
| Predicates.JapanIsNoSingleA | src/App.tsx:123-134 | "Japan" is never an answer for 'a' either |
| Predicates.ChadIsSingleA | src/App.tsx:123-134 | "Chad" is an answer for 'a' whenever it is in the dataset |
| Predicates.EndingLetterAnswers | src/App.tsx:135-143 | the letter is lower-case and a name is an answer exactly when its lower-cased form ends with it |
| Predicates.BeginningLetterAnswers | src/App.tsx:144-152 | the letter is lower-case and a name is an answer exactly when its lower-cased form begins with it |
| Generator.TemplateShape | src/App.tsx:52-77 | every template has exactly one "*": none in the wording between the leading "X" and it, none in the wording after it; every template ends with a period |
| Generator.DescribeFillsPlaceholders | src/App.tsx:254-258 | the description is the template with "X" replaced by the count and "*" by the upper-cased parameter, the rest kept |
| Generator.AttemptOf | src/App.tsx:208-248 | definition of one pass: the candidates, then at most two filters while more than eight remain, abandoned when the first filter leaves fewer than two; its meaning is stated by `Generator.AttemptSteps` and `Generator.AttemptMatches` |
| Generator.AttemptSteps | src/App.tsx:219-248 | a filter is applied only above eight matches; a pass is abandoned only when the first filter leaves fewer than two; a second filter is applied only when more than eight remain |
| Generator.AttemptMatches | src/App.tsx:216-248 | the matches of a counted pass are exactly the dataset names that pass the primary test and every recorded filter |
| Generator.AttemptFromDataset | src/App.tsx:216-248 | the matches of a counted pass are a duplicate-free subsequence of the dataset's names |
| Generator.Loop | src/App.tsx:197-266 | definition of the loop from a given pass and counter: abandoned passes leave the counter, counted passes move it on, a counted pass with two to eight matches ends it, the cap of 100 stops it |
| Generator.RunLoop | src/App.tsx:197-266 | definition of the loop from a fresh counter over the outcomes of the supplied draws |
| Generator.Narrow | src/App.tsx:228-230 | definition of `matchingCountries.filter(... === true)` for one attribute, used for both filters (also src/App.tsx:244-246); `Countries.SelectMembers` states its meaning |
| Generator.Describe | src/App.tsx:256-258 | definition of the two chained `replace` calls; `Generator.DescribeFillsPlaceholders` states the result |
| Generator.Render | src/App.tsx:254-258 | definition of the description of the challenge a draw picks, for a given count |
| Generator.AcceptedComesFromCountedPass | src/App.tsx:200-266 | an accepted challenge comes from one pass that was counted with two to eight matches, and the counter stays within the cap |
| Generator.AcceptedAnswers | src/App.tsx:250-263 | accepted answers number two to eight, come from the dataset without repeats and in order, and are exactly the names passing the challenge's test and its at most two filters; membersOf is never accepted |
| Generator.AttemptsBounded | src/App.tsx:197-205 | the counter never passes 100, and the loop gives up exactly when it reaches 100 without acceptance |
| Generator.GaveUpNeedsCountedPasses | src/App.tsx:203-205 | giving up takes at least as many counted passes as the cap leaves |
| Generator.AbandonedPassesAreNotCounted | src/App.tsx:232-236 | abandoned passes leave the counter where it was, so they alone never end the loop |
| Generator.MembersOfPassIsEmpty | src/App.tsx:153-154 | a membersOf pass is always counted, with no answers and no filter |
| Generator.EmptyPassesGiveUp | src/App.tsx:197-266 | counted passes with no answers, as many as the cap leaves, make the loop give up at 100 |
| Generator.MembersOfDrawsGiveUp | src/App.tsx:197-266 | one hundred membersOf draws make the loop give up at the cap with numberOfAnswers at 0 |
| Generator.FourLetterExample | src/App.tsx:105-111 | with Chad, Mali and Togo and a length of 4, the first pass is accepted after one attempt with all three names and no filter, and its description reads "3 countries contain exactly 4 letters." |
| Display.ClauseOf | src/App.tsx:271-296 | definition of the clause mapping of one filter name, as written |
| Display.Clauses | src/App.tsx:269-296 | definition of the clauses of the recorded filters, in order |
| Display.HeadingText | src/App.tsx:331-333 | definition of the shown heading: the description without its last character, " and ", and the clauses joined by " and ", or the description alone when there are no clauses |
| Display.AddedText | src/App.tsx:269-296 | the forEach yields the clauses of the recorded filters, in order |
| Display.ReducerClauses | src/App.tsx:271-296 | each narrowing attribute yields one clause except isNonAlignedMember, which yields none; isIslamicCooperationMember yields the Non-Aligned Movement text |
| Display.ClausesCount | src/App.tsx:271-296 | there is one clause per recorded filter other than isNonAlignedMember |
| Display.HeadingWithoutClauses | src/App.tsx:331-333 | with no clauses the description is shown unchanged |
| Display.HeadingSnoc | src/App.tsx:331-333 | each further clause appends " and " and the clause; the first one replaces the description's final character |
| Display.HeadingAppendsClause | src/App.tsx:331-333 | each further filter with a clause appends " and " and its clause to the heading |
| Display.RenderEndsWithPeriod | src/App.tsx:254-258 | every rendered description ends with a period |
| Display.HeadingReplacesPeriod | src/App.tsx:331-333 | with clauses, the heading is the description without its final period, then " and ", then the clauses joined by " and " |
| Game.LastOf | src/App.tsx:221-243 | paramReducer is left at the last filter applied, or null when none was |
| Game.Quiz.constructor | src/App.tsx:161-172 | the initial state: no challenge, no answers, no guess yet, counters at zero, no filters |
| Game.Quiz.Retry | src/App.tsx:200-266 | the loop ends in the state the loop function gives for the pass outcomes: the accepted pass's description, answers, count and filters, or otherwise the old challenge and answers, no filters, and the count of the last counted pass |
| Game.Quiz.RunPass | src/App.tsx:208-263 | a pass has the outcome its draw gives; it sets the rendered description and the answers exactly when it is counted with two to eight matches, and otherwise leaves them; an abandoned pass leaves the first filter in searcherArray and paramReducer null |
| Game.Quiz.DrawAndNarrow | src/App.tsx:208-248 | the matches, filters and paramReducer are those of the draw's pass, the replacement value is the drawn challenge's, and the pass is abandoned exactly when the first filter leaves fewer than two; then searcherArray holds that first filter (line 225) and paramReducer is null (line 234) |
| Game.Quiz.GenerateChallenge | src/App.tsx:190-267 | the new state is the outcome of the loop over the supplied draws: on acceptance the description, answers, count and filters of the accepted pass; otherwise challenge and answers unchanged, no filters, and the count of the last counted pass; the guess counter and first-guess flag are reset |
| Game.Quiz.HandleSubmit | src/App.tsx:297-313 | a hit marks the guess correct, counts it, and removes it, so one fewer answer remains; a miss marks the guess incorrect and changes nothing else; correct guesses plus remaining answers stay equal to the announced count |
| Game.Quiz.Heading | src/App.tsx:328-334 | the heading is shown only once a challenge is set, with the clauses of the recorded filters |

## Left out
- React rendering, JSX, images and the state hooks (src/App.tsx:159-188, 314-370). State updates are modelled as immediate field assignments. React's batching gives the same final values, because each setter's last call wins.
- The answer icons and the winner image are rendering only. The state they read is modelled.
- Loading the dataset with `fetch` is I/O. The dataset is a value given to the constructor.
- `Math.random` and its floating-point arithmetic are replaced by supplied draws with the helpers' ranges.
- `OutOfDraws` is a model addition. The source has no counterpart; it stops the model when the supplied draws run out.
- Unicode case mapping is replaced by ASCII case mapping.
- The model's strings are sequences of Unicode characters, while JavaScript's are sequences of UTF-16 code units. `length` (src/App.tsx:108) therefore agrees only for names without characters outside the Basic Multilingual Plane; each such character is one longer in JavaScript.
- The regular expression engine is replaced by the single-occurrence shape the expression describes.
- `$` patterns in `replace` replacements are not modelled. The replacements here are digits, upper-case letters or "NULL", which never contain `$`.
- The number and string attributes (population, GDP, continent and so on) are never read by the logic. Numbers are modelled as integers.
- The order of `for…in` over the dataset is the order of `Dataset.names`. JavaScript puts integer-like keys first; country names are not integer-like.
- `console.warn`, `console.log`, and reading and clearing the DOM input are omitted. The guess is a method parameter.
- `answersImage` is left out: it is set only to the value it already holds.
