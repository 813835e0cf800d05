/**
  The playground's class example: `Test` objects with a mutable `score`,
  filtered on `score > 80` and reduced to the one with the highest score.
  Both operations work on references, so what they return are the very
  objects of the input (Dafny reference equality stands for the printed
  object addresses).  `Scores`, `ScoredAbove` and `BestFrom` restate map,
  filter and reduce for `Test` because the arrows of `Combinators` are total
  (`->`) and so cannot read the mutable `score` field.
*/
module Grading {
  import opened Combinators

  class Test {
    var score: int

    constructor ()
      ensures score == 0
    {
      score := 0;
    }
  }

  /** The scores of `tests`, in order. */
  function Scores(tests: seq<Test>): (r: seq<int>)
    reads tests
    ensures |r| == |tests|
    ensures forall i :: 0 <= i < |tests| ==> r[i] == tests[i].score
    decreases |tests|
  {
    if tests == [] then [] else [tests[0].score] + Scores(tests[1..])
  }

  /** `tests.filter{$0.score > bound}`. */
  function ScoredAbove(tests: seq<Test>, bound: int): (r: seq<Test>)
    reads tests
    ensures |r| <= |tests|
    ensures forall i :: 0 <= i < |r| ==> r[i] in tests && r[i].score > bound
    ensures forall i :: 0 <= i < |tests| && tests[i].score > bound ==> tests[i] in r
    decreases |tests|
  {
    if tests == [] then []
    else if tests[0].score > bound then [tests[0]] + ScoredAbove(tests[1..], bound)
    else ScoredAbove(tests[1..], bound)
  }

  /** Filtering the objects keeps the same references, in their order. */
  lemma {:induction false} ScoredAboveIsSubsequence(tests: seq<Test>, bound: int)
    ensures IsSubsequence(ScoredAbove(tests, bound), tests)
    decreases |tests|
  {
    if tests != [] {
      ScoredAboveIsSubsequence(tests[1..], bound);
      var r := ScoredAbove(tests, bound);
      if tests[0].score <= bound && r != [] {
        assert r[0] in r;
      }
    }
  }

  /** The scores of the filtered tests are the filtered scores. */
  lemma {:induction false} ScoredAboveScores(tests: seq<Test>, bound: int)
    ensures Scores(ScoredAbove(tests, bound)) == Filter(Scores(tests), x => x > bound)
    decreases |tests|
  {
    if tests != [] {
      ScoredAboveScores(tests[1..], bound);
      var scores := Scores(tests);
      assert scores == [tests[0].score] + Scores(tests[1..]);
      assert scores[1..] == Scores(tests[1..]);
      var r := ScoredAbove(tests, bound);
      if tests[0].score > bound {
        assert r == [tests[0]] + ScoredAbove(tests[1..], bound);
        assert Scores(r) == [tests[0].score] + Scores(r[1..]);
        assert r[1..] == ScoredAbove(tests[1..], bound);
      }
    }
  }

  /** The reduce closure `$0.score > $1.score ? $0 : $1`: on a tie the second wins. */
  function Higher(a: Test, b: Test): (r: Test)
    reads a, b
    ensures r == a || r == b
    ensures r.score >= a.score && r.score >= b.score
    ensures a.score == b.score ==> r == b
  {
    if a.score > b.score then a else b
  }

  /** The fold of `Higher` over `rest`, from the accumulator `best`. */
  function BestFrom(best: Test, rest: seq<Test>): (r: Test)
    reads best, rest
    ensures r == best || r in rest
    ensures r.score >= best.score
    ensures forall i :: 0 <= i < |rest| ==> rest[i].score <= r.score
    decreases |rest|
  {
    if rest == [] then best else BestFrom(Higher(best, rest[0]), rest[1..])
  }

  /** `tests.reduce(tests[0]) { $0.score > $1.score ? $0 : $1 }`; Swift traps on `tests[0]` when `tests` is empty. */
  function BestTest(tests: seq<Test>): (r: Test)
    requires |tests| > 0
    reads tests
    ensures r in tests
    ensures forall i :: 0 <= i < |tests| ==> tests[i].score <= r.score
  {
    BestFrom(tests[0], tests)
  }

  /**
    The fold keeps the accumulator only if every later score is strictly
    lower; otherwise it ends on the last element that reaches the maximum.
  */
  lemma {:induction false} BestFromIsLastMaximum(best: Test, rest: seq<Test>)
    ensures var r := BestFrom(best, rest);
      || (r == best && forall i :: 0 <= i < |rest| ==> rest[i].score < best.score)
      || (exists k :: 0 <= k < |rest| && rest[k] == r && forall i :: k < i < |rest| ==> rest[i].score < r.score)
    decreases |rest|
  {
    if rest != [] {
      var h := Higher(best, rest[0]);
      var r := BestFrom(best, rest);
      assert r == BestFrom(h, rest[1..]);
      BestFromIsLastMaximum(h, rest[1..]);
      if r == h && forall i :: 0 <= i < |rest[1..]| ==> rest[1..][i].score < h.score {
        if h != best {
          assert rest[0] == r;
        }
      } else {
        var k :| 0 <= k < |rest[1..]| && rest[1..][k] == r
          && forall i :: k < i < |rest[1..]| ==> rest[1..][i].score < r.score;
        assert rest[k + 1] == r;
      }
    }
  }

  /**
    The best test is the last one holding the highest score: on equal scores
    the later element wins, because the comparison is strict.
  */
  lemma BestTestIsLastMaximum(tests: seq<Test>)
    requires |tests| > 0
    ensures exists k :: (0 <= k < |tests| && tests[k] == BestTest(tests)
      && forall i :: k < i < |tests| ==> tests[i].score < BestTest(tests).score)
  {
    BestFromIsLastMaximum(tests[0], tests);
  }

  /**
    The playground's three tests scored 75, 80 and 90: only the third scores
    above 80, and it is also the best.
  */
  method ClassExample() returns (tests: seq<Test>, greaterThan80: seq<Test>, bestTest: Test)
    ensures |tests| == 3 && tests[0] != tests[1] && tests[1] != tests[2] && tests[0] != tests[2]
    ensures tests[0].score == 75 && tests[1].score == 80
    ensures greaterThan80 == [tests[2]]
    ensures bestTest == tests[2] && bestTest.score == 90
  {
    var test1 := new Test();
    test1.score := 75;
    var test2 := new Test();
    test2.score := 80;
    var test3 := new Test();
    test3.score := 90;
    tests := [test1, test2, test3];
    assert tests[1..] == [test2, test3] && [test2, test3][1..] == [test3];
    assert ScoredAbove([test3], 80) == [test3];
    assert ScoredAbove([test2, test3], 80) == [test3];
    greaterThan80 := ScoredAbove(tests, 80);
    bestTest := BestTest(tests);
  }
}
