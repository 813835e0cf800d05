# MapFilterReduce, modelled in Dafny

The MapFilterReduce playground is a Swift teaching script. It works on the
array `numbers = [1, 2, 3, 4, 5, 6, 7]` and shows each collection operation
twice. The first form is a hand-written `for`-`in` loop that appends to an
array or updates an accumulator. The second form is the standard library's
higher-order call: `map`, `filter`, `reduce` or `enumerate`. A final example
filters and reduces objects of a class `Test`, whose `score` field is set
after construction.

The model has four modules:

- `Combinators` (`combinators.dfy`): the library calls as recursive
  functions over immutable sequences. These are `Map`, `Filter`, `Reduce`
  (a left fold whose seed may have another type than the elements) and
  `Enumerate`, plus `IsSubsequence`. Lemmas state what the playground
  relies on: order, length, contents, multiplicities and left-to-right
  folding.
- `Decimal` (`decimal.dfy`): Swift's string interpolation `"\(number)"` of an
  `Int`, which is the playground's `stringFromNumber`. It renders a decimal
  numeral with a `-` sign and no leading zeros. A parser and a round-trip
  lemma show that no information is lost.
- `Playground` (`playground.dfy`): the numbers, the helpers `isEven`,
  `addToTotal` and the string-appending closure, and Swift's truncating `%`.
  It holds the three `for`-`in` loops as methods, each proved equal to its
  library counterpart. The values the script prints (`["1",...,"7"]`,
  `[2, 4, 6]`, `28`, `"1234567"`, `16`) are stated as lemmas.
- `Grading` (`grading.dfy`): the class `Test`, and the filter on
  `score > 80`. It also holds the reduce that finds the highest score, with
  ties going to the later element. Object identity is Dafny reference
  equality.

## Model

| member | source | states |
|---|---|---|
| `Combinators.Map` | MapFilterReduce.playground/Contents.swift:91-92 | `map` yields one element per input, so the length is equal, and element i is `f(s[i])` |
| `Combinators.Filter` | MapFilterReduce.playground/Contents.swift:129-130 | `filter` is never longer than its input; every kept element is in the input and satisfies the predicate; every input element that satisfies it is kept |
| `Combinators.FilterIsSubsequence` | MapFilterReduce.playground/Contents.swift:129-130 | the result of `filter` is a subsequence of the input, in the input's relative order |
| `Combinators.FilterAppend` | MapFilterReduce.playground/Contents.swift:120-130 | filtering a concatenation is the concatenation of the filtered parts, so filtering never reorders |
| `Combinators.FilterCount` | MapFilterReduce.playground/Contents.swift:129-130 | each value satisfying the predicate occurs in the result exactly as often as in the input; any other value does not occur |
| `Combinators.Reduce` | MapFilterReduce.playground/Contents.swift:166-167 | `reduce(seed, combine)` as a left fold; it has no contract of its own, and `ReduceAppend` and `ReduceSnoc` state its meaning |
| `Combinators.ReduceAppend` | MapFilterReduce.playground/Contents.swift:166-167 | `reduce` over an empty input returns the seed; over `a + b` it is the reduce of `b` seeded with the reduce of `a`, i.e. strictly left to right |
| `Combinators.ReduceSnoc` | MapFilterReduce.playground/Contents.swift:159-167 | one more element costs one more `combine(accumulator, element)` step, the step the `for`-`in` loop takes |
| `Combinators.Enumerate` | MapFilterReduce.playground/Contents.swift:55-64 | `enumerate()` yields exactly `|s|` pairs, and pair i is `(i, s[i])` |
| `Combinators.EnumerateProjections` | MapFilterReduce.playground/Contents.swift:61-64 | the elements of the pairs are the input, and the indices are 0, 1, ..., n-1 with no gaps |
| `Decimal.StringFromNumber` | MapFilterReduce.playground/Contents.swift:78-80 | `"\(number)"` is a well-formed numeral that starts with `-` exactly when the number is negative, and has no leading zero: 0 renders as exactly `"0"`, any other number does not start with `0`, and no `0` follows the `-` |
| `Decimal.StringFromNumberRoundTrip` | MapFilterReduce.playground/Contents.swift:78-80 | parsing the rendered numeral gives back the number |
| `Decimal.StringFromNumberInjective` | MapFilterReduce.playground/Contents.swift:78-80 | distinct numbers render as distinct strings |
| `Playground.TruncRem` | MapFilterReduce.playground/Contents.swift:116 | Swift's `%` by a positive divisor: the dividend is the divisor times some quotient plus the remainder, the remainder is smaller than the divisor in magnitude, and it has the sign of the dividend |
| `Playground.IsEven` | MapFilterReduce.playground/Contents.swift:115-117 | `isEven` is `number % 2 == 0` with Swift's `%`; `ParityAgrees` states its meaning |
| `Playground.IsOdd` | MapFilterReduce.playground/Contents.swift:201 | the closure `$0 % 2 != 0`; `ParityAgrees` states that it is the negation of `IsEven` |
| `Playground.AddToTotal` | MapFilterReduce.playground/Contents.swift:154-156 | `addToTotal` returns the running total plus the next number; `ReduceAddIsSum` states what reducing with it gives |
| `Playground.AppendNumber` | MapFilterReduce.playground/Contents.swift:186-188 | the closure `"\(string)\(number)"`; `AppendNumberParsesBack` and `ReduceAppendNumberIsJoin` state its meaning |
| `Playground.AppendNumberParsesBack` | MapFilterReduce.playground/Contents.swift:186-188 | the closure keeps the text it is given as a prefix and appends a numeral that parses back to the number |
| `Playground.ParityAgrees` | MapFilterReduce.playground/Contents.swift:115-117 | the truncating `number % 2 == 0` test agrees with mathematical evenness for negative numbers too, and `$0 % 2 != 0` (line 201) is its negation |
| `Playground.StringsFromNumbers` | MapFilterReduce.playground/Contents.swift:81-92 | the loop that appends `stringFromNumber(number)` returns exactly `numbers.map(stringFromNumber)` |
| `Playground.EvenNumbers` | MapFilterReduce.playground/Contents.swift:118-130 | the loop that appends the even numbers returns exactly `numbers.filter(isEven)` |
| `Playground.Total` | MapFilterReduce.playground/Contents.swift:157-167 | the loop `total = addToTotal(total, number)` from 0 returns `numbers.reduce(0, combine: addToTotal)`, which is the sum of the numbers |
| `Playground.ReduceAddIsSum` | MapFilterReduce.playground/Contents.swift:151-167 | reducing with `addToTotal` from any seed gives the seed plus the sum of the elements |
| `Playground.ReduceAppendNumberIsJoin` | MapFilterReduce.playground/Contents.swift:185-188 | reducing with `"\(string)\(number)"` writes the numerals after the seed, in input order (the seed is a `String`, the elements are `Int`s) |
| `Playground.SumSplitsByParity` | MapFilterReduce.playground/Contents.swift:194-201 | the sum of the odd elements plus the sum of the even elements is the sum of all elements |
| `Playground.MapExample` | MapFilterReduce.playground/Contents.swift:91-93 | `numbers.map(stringFromNumber)` is `["1", "2", "3", "4", "5", "6", "7"]` |
| `Playground.FilterExample` | MapFilterReduce.playground/Contents.swift:129-131 | `numbers.filter(isEven)` is `[2, 4, 6]` |
| `Playground.ReduceExample` | MapFilterReduce.playground/Contents.swift:151-168 | `numbers.reduce(0, combine: addToTotal)` is 28 |
| `Playground.ReduceToStringExample` | MapFilterReduce.playground/Contents.swift:185-189 | the string reduce gives `"1234567"`, and on an empty input it gives the seed `""` |
| `Playground.FilterReduceExample` | MapFilterReduce.playground/Contents.swift:194-202 | `numbers.filter{$0 % 2 != 0}.reduce(0){$0 + $1}` is 16, i.e. 1 + 3 + 5 + 7 |
| `Playground.EnumerateExample` | MapFilterReduce.playground/Contents.swift:55-64 | `numbers.enumerate()` has seven pairs, from `(0, 1)` to `(6, 7)` |
| `Grading.Test.constructor` | MapFilterReduce.playground/Contents.swift:220-222 | a new `Test` has score 0 |
| `Grading.ScoredAbove` | MapFilterReduce.playground/Contents.swift:237-238 | `tests.filter{$0.score > 80}` keeps exactly the tests scoring above the bound, as references taken from the input |
| `Grading.ScoredAboveIsSubsequence` | MapFilterReduce.playground/Contents.swift:237-240 | the filtered tests are a subsequence of the same objects, in their order, not copies |
| `Grading.ScoredAboveScores` | MapFilterReduce.playground/Contents.swift:237-238 | the scores of the filtered tests are the input's scores filtered on the same bound |
| `Grading.Higher` | MapFilterReduce.playground/Contents.swift:249 | `$0.score > $1.score ? $0 : $1` returns one of its arguments with the higher score, and the second one on a tie |
| `Grading.BestFrom` | MapFilterReduce.playground/Contents.swift:244-253 | folding `Higher` returns the seed or an element, scoring at least the seed and every element |
| `Grading.BestTest` | MapFilterReduce.playground/Contents.swift:244-254 | `tests.reduce(tests[0]) {...}` returns an element of `tests` whose score is at least every score in `tests` |
| `Grading.BestFromIsLastMaximum` | MapFilterReduce.playground/Contents.swift:244-253 | the fold keeps its seed only if every element scores strictly lower; otherwise it returns an element after which every score is strictly lower |
| `Grading.BestTestIsLastMaximum` | MapFilterReduce.playground/Contents.swift:244-253 | the best test is the last one holding the highest score, so on equal scores the later element wins |
| `Grading.ClassExample` | MapFilterReduce.playground/Contents.swift:224-254 | with scores 75, 80 and 90 on three distinct objects, the filter returns exactly `[test3]` and the reduce returns `test3` with score 90 |

## Left out

- `forEach` (lines 25, 37-39, 46, 68, 210-213) and `printNumber` (lines 14-16): their only effect is console output, which is not modelled.
- All `print` output and `import UIKit` (line 6): console I/O and a UI framework.
- `unsafeAddressOf` (lines 233, 239, 246-251): raw object addresses. Object identity is Dafny reference equality instead, as in `Grading.ClassExample`.
- The repeated closure spellings (lines 98-107, 136-146, 173-183, 210-213): each computes the same function as the named helper. Each operation is modelled once.
- `Playground.AddToTotal`, `Playground.Total`, `Playground.ReduceAddIsSum`: integers are unbounded, so Swift's trap on 64-bit `Int` overflow in `+` is not modelled.
- `Combinators.Enumerate`: Swift's `enumerate()` is a lazy sequence; the model materialises it as a value, which can be traversed any number of times.
- `Combinators.Map`, `Combinators.Filter`, `Combinators.Reduce`: callbacks are pure functions, so the number of times and the order in which the library invokes them is not observable. Only the result is modelled.
- `Grading.BestTest`: it requires a non-empty `tests`, because `tests[0]` traps on an empty array in Swift and the script always passes three tests.
- The tutorial's questions and answers in comments are prose, not behaviour.
