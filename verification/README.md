# Guessing-rules answer checker, in Dafny

The original program is a small Android game. The player is shown a hidden
rule, numbered 1 to 5, and either names it or types a sequence of integers
that should satisfy it. The five rules are:

1. a run of Fibonacci numbers;
2. all values distinct;
3. strictly increasing;
4. a palindrome;
5. all multiples of three.

A submission is typed as `"<rule number>:<answer>"`. A sequence answer is
written as integers separated by `_`. This project models the answer-checking
engine of `MainViewModel` and proves what it computes:

- the rule-name matcher `checkRule`;
- the scoring table `getRuleScore`;
- the five sequence classifiers;
- the dispatcher `checkSequence`;
- the evaluator `calculateResult`;
- the `submit` step that updates the score and result text;
- the unused `isFibonacciSequence`;
- the `scoreInfo` text.

Modules, one per component:

| file | module | models |
|---|---|---|
| `wrappers.dfy` | `Wrappers` | `Option` |
| `text.dfy` | `Text` | Kotlin `split` on one character, `joinToString`, `isBlank` |
| `numbers.dfy` | `Numbers` | `Integer.parseInt`, `Int.toString`, Kotlin's truncating `%` |
| `fibonacci.dfy` | `Fibonacci` | `isPartOfFibonacciSequence`, `isFibonacciSequence` |
| `classifiers.dfy` | `Classifiers` | the classifiers of rules 2 to 5 |
| `rules.dfy` | `Rules` | `checkRule`, `getRuleScore`, `scoreInfo` |
| `evaluator.dfy` | `Evaluator` | `checkSequence`, `calculateResult` |
| `session.dfy` | `Session` | `submit` and the score store |

Every classifier is written in the shape of the original loop. Each Kotlin
`for` loop with an early `return false` becomes a recursive walk over an
index. Each classifier is proved equal to a declarative definition.

Exceptions are modelled as values. `calculateResult` returns `null` only when
the submitted string is `null`; the model's `Absent`. A rule number that is
not a numeral, a missing `:`, or a sequence token that is not a numeral makes
`Integer.parseInt` or the list access throw. That exception escapes `submit`;
the model's `Raised` / `Thrown`. An error notification (`errorEvent`) is posted
in only two cases:

- both fields are set and blank;
- the chosen field is `null`.

A malformed submission is not reported through `errorEvent`:
`Integer.parseInt` or `solutions[1]` throws, and the exception leaves `submit`.

`[1, 2, 3, 5, 8]` is a run of Fibonacci numbers, but rule 1 rejects it:
`fib.indexOf(1)` finds the first 1, at index 1, and the value after it is 1,
not 2. `Fibonacci.WindowStartingAtSecondOneRejected`
proves the rejection, and `Fibonacci.PartOfFibonacciCharacterization` states
exactly which sequences are accepted. The code also rejects `[0, 1, 1]` and
`[1, 1]`. For a last value of 1, the generated prefix stops at `[0, 1]`.
The five-value minimum of `checkSequence` hides this second quirk, but not
the first.

## Model

| member | source | states |
|---|---|---|
| Text.Split | app/src/main/java/yenarue/simulation/ria/MainViewModel.kt:59 | `split(":")` gives at least one piece, no piece holds the separator, and joining the pieces with the separator restores the input |
| Text.JoinExtendsFirst | app/src/main/java/yenarue/simulation/ria/MainViewModel.kt:59 | characters put in front of the first piece come out in front of the joined text; this is how `split` grows its first piece |
| Text.SplitJoin | app/src/main/java/yenarue/simulation/ria/MainViewModel.kt:72 | splitting a `_`-join of separator-free pieces gives the pieces back |
| Text.Join | app/src/main/java/yenarue/simulation/ria/MainViewModel.kt:180 | a join starts with its first piece, and a character other than the separator occurs in it only if it occurs in some piece |
| Text.IsBlank | app/src/main/java/yenarue/simulation/ria/MainViewModel.kt:38 | `isBlank` holds exactly when every character is whitespace; the empty string is blank |
| Numbers.ParseInt | app/src/main/java/yenarue/simulation/ria/MainViewModel.kt:63 | `Integer.parseInt` succeeds exactly on an optional sign followed by at least one digit; the value is the decimal value of the digits, negated after a `-` |
| Numbers.PlusSignIgnored | app/src/main/java/yenarue/simulation/ria/MainViewModel.kt:63 | a leading `+` does not change what `parseInt` gives |
| Numbers.LeadingZeroValue | app/src/main/java/yenarue/simulation/ria/MainViewModel.kt:63 | a leading zero digit does not change the decimal value of a digit string |
| Numbers.LeadingZeroIgnored | app/src/main/java/yenarue/simulation/ria/MainViewModel.kt:63 | `parseInt` gives the same value with or without a leading `0` |
| Numbers.NegativeZeroIsZero | app/src/main/java/yenarue/simulation/ria/MainViewModel.kt:63 | `-0` parses to 0 |
| Numbers.IntToString | app/src/main/java/yenarue/simulation/ria/MainViewModel.kt:48 | the printed form of an integer is non-empty, made of digits after an optional `-`, starts with `-` exactly for negative values, and has no leading zero except `0` itself |
| Numbers.ParseIntToString | app/src/main/java/yenarue/simulation/ria/MainViewModel.kt:48 | parsing the printed form of any integer gives that integer back |
| Numbers.IntToStringInjective | app/src/main/java/yenarue/simulation/ria/MainViewModel.kt:48 | different integers print differently |
| Numbers.RemThree | app/src/main/java/yenarue/simulation/ria/MainViewModel.kt:153 | Kotlin's `it % 3` differs from `it` by a multiple of 3, lies strictly between -3 and 3, and has the sign of `it` |
| Fibonacci.FibPrefix | app/src/main/java/yenarue/simulation/ria/MainViewModel.kt:104-107 | the generated list is the first Fibonacci numbers, at least two of them; its last value reaches the target and no value from index 1 up to the last one does |
| Fibonacci.Grow | app/src/main/java/yenarue/simulation/ria/MainViewModel.kt:105-107 | the generation loop keeps the list a Fibonacci prefix, ends with a value reaching the target, and terminates |
| Fibonacci.IndexOf | app/src/main/java/yenarue/simulation/ria/MainViewModel.kt:110 | `indexOf` returns the first position holding the value, or nothing when no position holds it |
| Fibonacci.IndexOfFirst | app/src/main/java/yenarue/simulation/ria/MainViewModel.kt:110 | `indexOf` returns a position holding the value when no earlier position holds it |
| Fibonacci.MatchesFrom | app/src/main/java/yenarue/simulation/ria/MainViewModel.kt:116-120 | the comparison loop succeeds exactly when every value from the index on equals the generated value at the shifted position |
| Fibonacci.IsPartOfFibonacciSequence | app/src/main/java/yenarue/simulation/ria/MainViewModel.kt:100-123 | an accepted sequence is non-empty and is some contiguous run of Fibonacci numbers |
| Fibonacci.PartIsAcceptedWindow | app/src/main/java/yenarue/simulation/ria/MainViewModel.kt:100-123 | an accepted sequence is the Fibonacci run that starts at the first index of its first value and does not end at index 2 |
| Fibonacci.PrefixReaches | app/src/main/java/yenarue/simulation/ria/MainViewModel.kt:104-107 | the list generated for the target `Fib(m)` reaches index m, for every m except 2 |
| Fibonacci.PrefixHoldsWindow | app/src/main/java/yenarue/simulation/ria/MainViewModel.kt:116-120 | a long enough generated list holds every Fibonacci run at its own positions, so the comparison loop succeeds on it |
| Fibonacci.AcceptedWindowIsPart | app/src/main/java/yenarue/simulation/ria/MainViewModel.kt:100-123 | every such run is accepted: the generated prefix is long enough and `indexOf` finds that start |
| Fibonacci.PartOfFibonacciCharacterization | app/src/main/java/yenarue/simulation/ria/MainViewModel.kt:100-123 | the sequence is accepted if and only if it is such a run |
| Fibonacci.LongPartOfFibonacci | app/src/main/java/yenarue/simulation/ria/MainViewModel.kt:100-123 | on five or more values, the sequence is accepted exactly when it is the Fibonacci run starting at the first index of its first value |
| Fibonacci.WindowStartingAtSecondOneRejected | app/src/main/java/yenarue/simulation/ria/MainViewModel.kt:110-113 | `[1, 2, 3, 5, 8]` is a run of Fibonacci numbers but is rejected, because the start is taken at the first 1 |
| Fibonacci.WindowStartingAtFirstOneAccepted | app/src/main/java/yenarue/simulation/ria/MainViewModel.kt:100-123 | `[1, 1, 2, 3, 5]` is accepted |
| Fibonacci.FollowsRecurrenceFrom | app/src/main/java/yenarue/simulation/ria/MainViewModel.kt:93-95 | the loop succeeds exactly when every value from the index on is the sum of the two before it |
| Fibonacci.RecurrenceIsFibPrefix | app/src/main/java/yenarue/simulation/ria/MainViewModel.kt:90-95 | a list starting 0, 1 follows the recurrence from index 2 on exactly when it is the start of the Fibonacci numbers |
| Fibonacci.IsFibonacciSequence | app/src/main/java/yenarue/simulation/ria/MainViewModel.kt:85-98 | `isFibonacciSequence` accepts exactly the lists of two or more values that start the Fibonacci numbers |
| Fibonacci.FibonacciSequenceIsPart | app/src/main/java/yenarue/simulation/ria/MainViewModel.kt:85-123 | a list accepted by `isFibonacciSequence` is accepted by `isPartOfFibonacciSequence` exactly when its length is not 3 |
| Classifiers.Distinct | app/src/main/java/yenarue/simulation/ria/MainViewModel.kt:127 | `distinct()` keeps exactly the values of the list, without repeats, never grows the list, and keeps its length exactly when the list has no repeats |
| Classifiers.AreAllElementsUnique | app/src/main/java/yenarue/simulation/ria/MainViewModel.kt:126-128 | true exactly when no two positions hold equal values |
| Classifiers.IncreasingFrom | app/src/main/java/yenarue/simulation/ria/MainViewModel.kt:135-139 | the loop succeeds exactly when every value from the index on exceeds its predecessor |
| Classifiers.IsStrictlyIncreasing | app/src/main/java/yenarue/simulation/ria/MainViewModel.kt:130-141 | true exactly when each value exceeds the one before it; lists of length 0 or 1 pass |
| Classifiers.AdjacentIncreasingIsSorted | app/src/main/java/yenarue/simulation/ria/MainViewModel.kt:130-141 | comparing neighbours is the same as every value exceeding every earlier value |
| Classifiers.MirroredFrom | app/src/main/java/yenarue/simulation/ria/MainViewModel.kt:144-148 | the loop succeeds exactly when each position from the index up to half the length holds the value of its mirror position |
| Classifiers.HalfMirrorIsReverse | app/src/main/java/yenarue/simulation/ria/MainViewModel.kt:143-150 | checking the first half against the second is the same as the list equalling its reverse |
| Classifiers.IsPalindrome | app/src/main/java/yenarue/simulation/ria/MainViewModel.kt:143-150 | `isPalindrome` holds exactly when the list equals its reverse |
| Classifiers.UniqueExamples | app/src/main/java/yenarue/simulation/ria/MainViewModel.kt:126-128 | `[1, 2, 3, 4, 5]` has no repeat and `[1, 2, 2, 4, 5]` has one |
| Classifiers.IncreasingExamples | app/src/main/java/yenarue/simulation/ria/MainViewModel.kt:130-141 | `[1, 2, 3, 4, 5]` and the empty list are increasing, `[1, 3, 2, 4, 5]` is not |
| Classifiers.PalindromeExamples | app/src/main/java/yenarue/simulation/ria/MainViewModel.kt:143-150 | `[1, 2, 3, 2, 1]` is a palindrome and `[1, 2, 3, 4, 5]` is not |
| Classifiers.MultiplesOfThreeExamples | app/src/main/java/yenarue/simulation/ria/MainViewModel.kt:152-154 | `[3, 6, 9, 12, 15]` is all multiples of 3 and `[3, 6, 9, 12, 14]` is not |
| Classifiers.AreAllElementsMultiplesOfThree | app/src/main/java/yenarue/simulation/ria/MainViewModel.kt:152-154 | true exactly when every value is divisible by 3, whatever its sign |
| Rules.Synonyms | app/src/main/java/yenarue/simulation/ria/MainViewModel.kt:156-163 | the table of accepted wordings is empty exactly for numbers outside 1 to 5 |
| Rules.CheckRule | app/src/main/java/yenarue/simulation/ria/MainViewModel.kt:156-163 | `checkRule` accepts a phrase exactly when it is one of the listed wordings of that rule; other rule numbers accept nothing |
| Rules.SynonymCounts | app/src/main/java/yenarue/simulation/ria/MainViewModel.kt:157-161 | rules 1 to 5 have 2, 7, 3, 3 and 1 distinct wordings |
| Rules.NamesAreUnambiguous | app/src/main/java/yenarue/simulation/ria/MainViewModel.kt:156-163 | no phrase is accepted for two different rules |
| Rules.RuleScore | app/src/main/java/yenarue/simulation/ria/MainViewModel.kt:165-172 | a pass on rule n in 1 to 5 scores 10n + 10, a fail scores -1, any other rule number scores 0 |
| Rules.RuleScoreOrdering | app/src/main/java/yenarue/simulation/ria/MainViewModel.kt:165-172 | a pass is worth more on a later rule, every pass is positive, and every fail costs the same |
| Rules.ScoreLine | app/src/main/java/yenarue/simulation/ria/MainViewModel.kt:177-179 | no line of the score map, for any rule number, contains a line break |
| Rules.ScoreLineScores | app/src/main/java/yenarue/simulation/ria/MainViewModel.kt:177-179 | the line of rule n shows `Rule<n>. Pass (10n + 10) / Fail (-1)` |
| Rules.ScoreLineAt | app/src/main/java/yenarue/simulation/ria/MainViewModel.kt:176-180 | the i-th line of the score map after its header is the line of rule i + 1 and holds no line break |
| Rules.ScoreLinesFree | app/src/main/java/yenarue/simulation/ria/MainViewModel.kt:176-180 | the five rule lines hold no line break, and the i-th is the line of rule i + 1 |
| Rules.ScoreInfoLines | app/src/main/java/yenarue/simulation/ria/MainViewModel.kt:175-182 | `scoreInfo`, cut at line breaks, is its header followed by the lines of rules 1 to 5 in order |
| Evaluator.ParseAll | app/src/main/java/yenarue/simulation/ria/MainViewModel.kt:72 | parsing every token succeeds exactly when all tokens are numerals, and then gives one value per token |
| Evaluator.Classify | app/src/main/java/yenarue/simulation/ria/MainViewModel.kt:75-82 | on five or more values, the `when` dispatch is exactly the declarative rule: first-index Fibonacci run, no repeats, sorted, equal to its reverse, all divisible by 3; a pass implies the rule number is 1 to 5 |
| Evaluator.CheckSequence | app/src/main/java/yenarue/simulation/ria/MainViewModel.kt:71-83 | throws exactly when a `_`-token is not a numeral; otherwise passes exactly when there are five or more values that meet rule n; a pass implies n is 1 to 5 |
| Evaluator.CalculateResult | app/src/main/java/yenarue/simulation/ria/MainViewModel.kt:58-69 | null gives no result; it throws exactly when the first `:`-piece is not a numeral, there is no second piece, or a sequence token fails; a rule answer passes exactly when the second piece is a wording of the rule and scores by the table; a sequence answer scores 0 |
| Evaluator.Numerals | app/src/main/java/yenarue/simulation/ria/MainViewModel.kt:72 | a sequence typed with `_` never holds a `:`, so it stays one piece of the submission |
| Evaluator.ParseNumerals | app/src/main/java/yenarue/simulation/ria/MainViewModel.kt:72 | a non-empty sequence typed with `_` parses back to itself |
| Evaluator.SplitSubmission | app/src/main/java/yenarue/simulation/ria/MainViewModel.kt:59-64 | in `number:answer` followed by nothing or by further `:`-pieces, the first piece is the number and the second is the answer |
| Evaluator.FirstPiece | app/src/main/java/yenarue/simulation/ria/MainViewModel.kt:59-64 | an answer without `:` followed by nothing or by a `:` is the first piece of the split |
| Evaluator.TypedRuleAnswer | app/src/main/java/yenarue/simulation/ria/MainViewModel.kt:58-69 | typing `n:phrase` in rule mode yields whether the phrase names rule n, scored by the table |
| Evaluator.TypedSequenceAnswer | app/src/main/java/yenarue/simulation/ria/MainViewModel.kt:58-83 | typing `n:x1_x2_…` in sequence mode passes exactly when there are five or more values meeting rule n, and scores 0 |
| Evaluator.RightNameExample | app/src/main/java/yenarue/simulation/ria/MainViewModel.kt:157 | `1:피보나치` passes and scores 20 |
| Evaluator.WrongNameExample | app/src/main/java/yenarue/simulation/ria/MainViewModel.kt:166 | `1:아무거나` fails and scores -1 |
| Evaluator.BadNumberExample | app/src/main/java/yenarue/simulation/ria/MainViewModel.kt:63 | `x:abc` throws |
| Evaluator.IncreasingExample | app/src/main/java/yenarue/simulation/ria/MainViewModel.kt:71-83 | `3:1_2_3_4_5` passes rule 3 with score 0 |
| Evaluator.TypedIncreasing | app/src/main/java/yenarue/simulation/ria/MainViewModel.kt:71-83 | rule 3 in sequence mode, with `1_2_3_4_5` typed after the rule number, passes with score 0 |
| Evaluator.ShortSequenceExample | app/src/main/java/yenarue/simulation/ria/MainViewModel.kt:73 | `3:1_2_3` fails: fewer than five values |
| Session.Get | app/src/main/java/yenarue/simulation/ria/Preferences.kt:30-32 | `getPreference` gives the default when nothing is stored under the key, and a stored value otherwise |
| Session.Set | app/src/main/java/yenarue/simulation/ria/Preferences.kt:19-24 | after `savePreference`, reading the key gives the saved value whatever the default, every other key reads as before, and the stored keys gain only that key |
| Session.Start | app/src/main/java/yenarue/simulation/ria/MainViewModel.kt:21 | the score shown at start is the stored one |
| Session.ResultText | app/src/main/java/yenarue/simulation/ria/MainViewModel.kt:48 | the result text starts with `P` exactly for a pass, and the score change parses back from between its parentheses |
| Session.ResultTextInjective | app/src/main/java/yenarue/simulation/ria/MainViewModel.kt:48 | two different outcomes never show the same result text |
| Session.PassText | app/src/main/java/yenarue/simulation/ria/MainViewModel.kt:48 | a pass with score change d reads `Pass (d)` |
| Session.Show | app/src/main/java/yenarue/simulation/ria/MainViewModel.kt:44-55 | a null result shows the error, an exception passes on, and an outcome adds its score change to the shown score, saves it under `score` through `savePreference` with every other stored entry unchanged, and shows its text; only an outcome changes the screen |
| Session.Evaluate | app/src/main/java/yenarue/simulation/ria/MainViewModel.kt:38-46 | there is no result (the error path) exactly when both fields are set and blank or the chosen field is null; past the blank check the result is `calculateResult` on the non-blank rule field, else on the sequence field |
| Session.Submit | app/src/main/java/yenarue/simulation/ria/MainViewModel.kt:34-56 | the error is shown exactly when both fields are set and blank or the chosen field is null; otherwise it throws exactly when `calculateResult` on the chosen field throws, and shows exactly its outcome; without a result nothing changes; a result adds its score change to the shown score, saves that new score under `score` through `savePreference` (so, by `Set`, every other stored key keeps its value) and shows `Pass (d)`/`Fail (d)`; shown and stored score stay equal |
| Session.SubmitKeepsOtherEntries | app/src/main/java/yenarue/simulation/ria/MainViewModel.kt:51-54 | a submission changes no stored entry except `score` |
| Session.SequenceAnswerKeepsScore | app/src/main/java/yenarue/simulation/ria/MainViewModel.kt:43-55 | when the rule field is null or blank, submitting never changes the score |
| Session.RuleFieldTakesPriority | app/src/main/java/yenarue/simulation/ria/MainViewModel.kt:43-44 | with a non-blank rule field, the sequence field has no effect |
| Session.UnsetRuleBlankSequenceRaises | app/src/main/java/yenarue/simulation/ria/MainViewModel.kt:38-47 | a null rule field and a blank sequence field pass the blank check, and `parseInt` then throws |
| Session.NothingEnteredShowsError | app/src/main/java/yenarue/simulation/ria/MainViewModel.kt:38-47 | with both fields null, the error is shown and nothing changes |
| Session.TypedRuleNameScores | app/src/main/java/yenarue/simulation/ria/MainViewModel.kt:34-56 | typing `n:phrase` into the rule field shows whether the phrase names rule n, adds the table score to the shown and stored score, and shows its text |
| Session.RightRuleNameScores | app/src/main/java/yenarue/simulation/ria/MainViewModel.kt:34-56 | naming rule n correctly adds 10n + 10 to the score and shows `Pass (10n + 10)` |

## Left out

- Kotlin `Int` overflow: integers are unbounded. The source wraps around in several places, which the model does not show:
  - Fibonacci generation for last values above 1836311903;
  - sums in `isFibonacciSequence`;
  - score accumulation.
- `Integer.parseInt`: the model does not reject values outside the 32-bit range, and it does not accept non-ASCII Unicode decimal digits.
- The exact exception types (`NumberFormatException`, `IndexOutOfBoundsException`) are folded into one `Raised` outcome.
- Threading and reactive plumbing are not modelled: `LiveData`, `ObservableField`, `postValue`, the coroutine scope and `onCleared`. `submit` is a plain sequential function, and posted values are taken to be applied at once.
- `Log.e` is a logging side effect and is not modelled.
- `MainActivity` (layout binding and the toast shown on the error event) is UI wiring.
- `Preferences` is modelled as a map from keys to integers. The Android `SharedPreferences` behind it, and its string entries, are not part of this model.
- `Text.IsWhitespace` lists the characters Kotlin's `isWhitespace` accepts, taken from the Java definitions of whitespace and space characters. It is not derived from a Unicode table.
