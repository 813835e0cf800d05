/**
  The playground's integer examples over `numbers = [1, 2, 3, 4, 5, 6, 7]`:
  each hand-written for-in loop is a method proved equal to the library
  call it is shown beside (`map`, `filter`, `reduce`), and the concrete
  values the playground prints are stated as lemmas.
*/
module Playground {
  import opened Combinators
  import opened Decimal

  const Numbers: seq<int> := [1, 2, 3, 4, 5, 6, 7]

  /** Swift's `%` on `Int`: truncating division, so the remainder takes the sign of `n`. */
  function TruncRem(n: int, d: int): (r: int)
    requires d > 0
    ensures -d < r < d
    ensures n >= 0 ==> r >= 0
    ensures n < 0 ==> r <= 0
    ensures exists q :: n == d * q + r
  {
    if n >= 0 then
      assert n == d * (n / d) + n % d;
      n % d
    else
      assert n == d * (-((-n) / d)) + -((-n) % d);
      -((-n) % d)
  }

  /** `isEven`: `number % 2 == 0`. */
  predicate IsEven(number: int) {
    TruncRem(number, 2) == 0
  }

  /** The closure `$0 % 2 != 0` of the odd-number pipeline. */
  predicate IsOdd(number: int) {
    TruncRem(number, 2) != 0
  }

  /** The truncating test agrees with the mathematical one, negative numbers included. */
  lemma ParityAgrees(number: int)
    ensures IsEven(number) <==> number % 2 == 0
    ensures IsOdd(number) <==> !IsEven(number)
  {
  }

  /** `addToTotal` (and the closure `$0 + $1`). */
  function AddToTotal(total: int, numberToAdd: int): (r: int) {
    total + numberToAdd
  }

  /** The closure `"\(string)\(number)"` of the string-building reduce. */
  function AppendNumber(text: string, number: int): (r: string) {
    text + StringFromNumber(number)
  }

  /** The closure keeps the text it is given and appends a numeral that parses back to the number. */
  lemma AppendNumberParsesBack(text: string, number: int)
    ensures var r := AppendNumber(text, number);
      |r| > |text| && r[..|text|] == text && IsNumeral(r[|text|..]) && ParseNumber(r[|text|..]) == number
  {
    var r := AppendNumber(text, number);
    assert r[|text|..] == StringFromNumber(number);
    StringFromNumberRoundTrip(number);
  }

  /**
    Reference definitions as right folds (`s[0] + Sum(s[1..])`), defined
    independently of `Reduce`'s left-to-right order.
  */
  function Sum(s: seq<int>): (r: int)
    decreases |s|
  {
    if s == [] then 0 else s[0] + Sum(s[1..])
  }

  function Join(parts: seq<string>): (r: string)
    decreases |parts|
  {
    if parts == [] then "" else parts[0] + Join(parts[1..])
  }

  /** The for-in loop that appends `stringFromNumber(number)` for each number. */
  method StringsFromNumbers(numbers: seq<int>) returns (stringsFromNumbers: seq<string>)
    ensures stringsFromNumbers == Map(numbers, StringFromNumber)
  {
    stringsFromNumbers := [];
    for k := 0 to |numbers|
      invariant |stringsFromNumbers| == k
      invariant forall i :: 0 <= i < k ==> stringsFromNumbers[i] == StringFromNumber(numbers[i])
    {
      var number := numbers[k];
      var text := StringFromNumber(number);
      stringsFromNumbers := stringsFromNumbers + [text];
    }
  }

  /** The for-in loop that appends each number for which `isEven` holds. */
  method EvenNumbers(numbers: seq<int>) returns (evenNumbers: seq<int>)
    ensures evenNumbers == Filter(numbers, IsEven)
  {
    evenNumbers := [];
    for k := 0 to |numbers|
      invariant evenNumbers == Filter(numbers[..k], IsEven)
    {
      var number := numbers[k];
      FilterAppend(numbers[..k], [number], IsEven);
      assert numbers[..k + 1] == numbers[..k] + [number];
      if IsEven(number) {
        evenNumbers := evenNumbers + [number];
      }
    }
    assert numbers[..|numbers|] == numbers;
  }

  /** The for-in loop `total = addToTotal(total, number)` starting from `total = 0`. */
  method Total(numbers: seq<int>) returns (total: int)
    ensures total == Reduce(numbers, 0, AddToTotal)
    ensures total == Sum(numbers)
  {
    total := 0;
    for k := 0 to |numbers|
      invariant total == Reduce(numbers[..k], 0, AddToTotal)
    {
      var number := numbers[k];
      ReduceSnoc(numbers[..k], number, 0, AddToTotal);
      assert numbers[..k + 1] == numbers[..k] + [number];
      total := AddToTotal(total, number);
    }
    assert numbers[..|numbers|] == numbers;
    ReduceAddIsSum(numbers, 0);
  }

  /** Reducing with `addToTotal` adds the seed to the sum of the elements. */
  lemma {:induction false} ReduceAddIsSum(s: seq<int>, seed: int)
    ensures Reduce(s, seed, AddToTotal) == seed + Sum(s)
    decreases |s|
  {
    if s != [] {
      ReduceAddIsSum(s[1..], seed + s[0]);
    }
  }

  /**
    Reducing with the string-appending closure writes the numerals after the
    seed, in input order.
  */
  lemma {:induction false} ReduceAppendNumberIsJoin(s: seq<int>, seed: string)
    ensures Reduce(s, seed, AppendNumber) == seed + Join(Map(s, StringFromNumber))
    decreases |s|
  {
    if s == [] {
      assert Map(s, StringFromNumber) == [];
    } else {
      var head := StringFromNumber(s[0]);
      ReduceAppendNumberIsJoin(s[1..], seed + head);
      assert Map(s, StringFromNumber)[1..] == Map(s[1..], StringFromNumber);
      assert seed + head + Join(Map(s[1..], StringFromNumber))
          == seed + (head + Join(Map(s[1..], StringFromNumber)));
    }
  }

  /** The sum of the odd elements plus the sum of the even elements is the sum of all. */
  lemma {:induction false} SumSplitsByParity(s: seq<int>)
    ensures Sum(Filter(s, IsOdd)) + Sum(Filter(s, IsEven)) == Sum(s)
    decreases |s|
  {
    if s != [] {
      SumSplitsByParity(s[1..]);
    }
  }

  lemma MapExample()
    ensures Map(Numbers, StringFromNumber) == ["1", "2", "3", "4", "5", "6", "7"]
  {
  }

  lemma FilterExample()
    ensures Filter(Numbers, IsEven) == [2, 4, 6]
  {
    assert Filter([7], IsEven) == [];
    assert Filter([6, 7], IsEven) == [6];
    assert Filter([5, 6, 7], IsEven) == [6];
    assert Filter([4, 5, 6, 7], IsEven) == [4, 6];
    assert Filter([3, 4, 5, 6, 7], IsEven) == [4, 6];
    assert Filter([2, 3, 4, 5, 6, 7], IsEven) == [2, 4, 6];
  }

  lemma ReduceExample()
    ensures Reduce(Numbers, 0, AddToTotal) == 28
  {
  }

  lemma ReduceToStringExample()
    ensures Reduce(Numbers, "", AppendNumber) == "1234567"
    ensures Reduce([], "", AppendNumber) == ""
  {
  }

  /** `numbers.filter{$0 % 2 != 0}.reduce(0){$0 + $1}` is 1 + 3 + 5 + 7. */
  lemma FilterReduceExample()
    ensures Reduce(Filter(Numbers, IsOdd), 0, AddToTotal) == 16
  {
    FilterExample();
    ReduceExample();
    SumSplitsByParity(Numbers);
    ReduceAddIsSum(Numbers, 0);
    ReduceAddIsSum(Filter(Numbers, IsOdd), 0);
    assert Sum([2, 4, 6]) == 12;
  }

  lemma EnumerateExample()
    ensures |Enumerate(Numbers)| == 7
    ensures Enumerate(Numbers)[0] == Indexed(0, 1) && Enumerate(Numbers)[6] == Indexed(6, 7)
  {
  }
}
