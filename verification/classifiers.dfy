/** Rules 2 to 5: the sequence classifiers `areAllElementsUnique`,
    `isStrictlyIncreasing`, `isPalindrome` and `areAllElementsMultiplesOfThree`,
    each written in the shape of the original loop and proved equal to a
    declarative reference. */
module Classifiers {
  import opened Numbers

  // ---------------------------------------------------------------- rule 2

  /** No two positions hold the same value. */
  predicate NoDuplicates(s: seq<int>)
  {
    forall i, j :: 0 <= i < j < |s| ==> s[i] != s[j]
  }

  /** Kotlin's `distinct()`: the values of `s`, each once. (Kotlin keeps the
      first occurrences in order; only the size is read, so only the values
      and the size are stated.) */
  function Distinct(s: seq<int>): (d: seq<int>)
    ensures |d| <= |s|
    ensures NoDuplicates(d)
    ensures forall x :: x in d <==> x in s
    ensures |d| == |s| <==> NoDuplicates(s)
  {
    if |s| == 0 then []
    else
      var init := s[..|s| - 1];
      var d := Distinct(init);
      var x := s[|s| - 1];
      assert s == init + [x];
      if x in d then
        assert x in init;
        assert !NoDuplicates(s) by {
          var i :| 0 <= i < |init| && init[i] == x;
          assert s[i] == s[|s| - 1];
        }
        d
      else
        assert NoDuplicates(s) <==> NoDuplicates(init) by {
          if NoDuplicates(init) {
            forall i, j | 0 <= i < j < |s|
              ensures s[i] != s[j]
            {
              if j == |s| - 1 {
                assert init[i] in init;
              } else {
                assert s[i] == init[i] && s[j] == init[j];
              }
            }
          }
          if NoDuplicates(s) {
            forall i, j | 0 <= i < j < |init|
              ensures init[i] != init[j]
            {
              assert s[i] == init[i] && s[j] == init[j];
            }
          }
        }
        d + [x]
  }

  /** `areAllElementsUnique`: `sequence.distinct().size == sequence.size`. */
  function AreAllElementsUnique(s: seq<int>): (r: bool)
    ensures r <==> NoDuplicates(s)
  {
    |Distinct(s)| == |s|
  }

  // ---------------------------------------------------------------- rule 3

  /** Each value is greater than the one right before it. */
  predicate AdjacentIncreasing(s: seq<int>)
  {
    forall i :: 1 <= i < |s| ==> s[i - 1] < s[i]
  }

  /** Every value is greater than every value before it. */
  predicate Sorted(s: seq<int>)
  {
    forall i, j :: 0 <= i < j < |s| ==> s[i] < s[j]
  }

  /** The comparison loop of `isStrictlyIncreasing`, from index `i` on. */
  function IncreasingFrom(s: seq<int>, i: nat): (r: bool)
    requires 1 <= i <= |s|
    ensures r <==> forall j :: i <= j < |s| ==> s[j - 1] < s[j]
    decreases |s| - i
  {
    if i == |s| then true
    else if s[i] <= s[i - 1] then false
    else IncreasingFrom(s, i + 1)
  }

  /** `isStrictlyIncreasing`: sequences of length 0 or 1 pass outright. */
  function IsStrictlyIncreasing(s: seq<int>): (r: bool)
    ensures r <==> AdjacentIncreasing(s)
  {
    if |s| <= 1 then true
    else IncreasingFrom(s, 1)
  }

  /** Comparing neighbours is enough: adjacent increase is full sortedness. */
  lemma {:induction false} AdjacentIncreasingIsSorted(s: seq<int>)
    ensures AdjacentIncreasing(s) <==> Sorted(s)
  {
    if AdjacentIncreasing(s) {
      forall i, j | 0 <= i < j < |s|
        ensures s[i] < s[j]
      {
        var k := i + 1;
        while k < j
          invariant i < k <= j
          invariant s[i] < s[k]
        {
          k := k + 1;
        }
      }
    }
  }

  // ---------------------------------------------------------------- rule 4

  function Reverse(s: seq<int>): (r: seq<int>)
    ensures |r| == |s|
    ensures forall i :: 0 <= i < |s| ==> r[i] == s[|s| - 1 - i]
  {
    if |s| == 0 then [] else Reverse(s[1..]) + [s[0]]
  }

  /** The comparison loop of `isPalindrome`, from index `i` up to `|s| / 2`. */
  function MirroredFrom(s: seq<int>, i: nat): (r: bool)
    requires i <= |s| / 2
    ensures r <==> forall j :: i <= j < |s| / 2 ==> s[j] == s[|s| - 1 - j]
    decreases |s| / 2 - i
  {
    if i == |s| / 2 then true
    else if s[i] != s[|s| - 1 - i] then false
    else MirroredFrom(s, i + 1)
  }

  /** Checking only the first half is the same as reading equal backwards. */
  lemma HalfMirrorIsReverse(s: seq<int>)
    ensures MirroredFrom(s, 0) <==> s == Reverse(s)
  {
    var r := Reverse(s);
    if MirroredFrom(s, 0) {
      forall i | 0 <= i < |s|
        ensures s[i] == r[i]
      {
        if i >= |s| / 2 {
          var j := |s| - 1 - i;
          if j < |s| / 2 {
            assert s[j] == s[|s| - 1 - j];
          }
        }
      }
    }
    if s == r {
      forall j | 0 <= j < |s| / 2
        ensures s[j] == s[|s| - 1 - j]
      {
        assert s[j] == r[j];
      }
    }
  }

  /** `isPalindrome`: the first half mirrors the second, which is exactly
      reading the same backwards. */
  function IsPalindrome(s: seq<int>): (r: bool)
    ensures r <==> s == Reverse(s)
  {
    HalfMirrorIsReverse(s);
    MirroredFrom(s, 0)
  }

  // ---------------------------------------------------------------- rule 5

  /** Every value is divisible by 3 (mathematical divisibility). */
  predicate AllDivisibleByThree(s: seq<int>)
  {
    forall i :: 0 <= i < |s| ==> s[i] % 3 == 0
  }

  /** `areAllElementsMultiplesOfThree`: `sequence.all { it % 3 == 0 }` with
      Kotlin's truncating `%`. */
  function AreAllElementsMultiplesOfThree(s: seq<int>): (r: bool)
    ensures r <==> AllDivisibleByThree(s)
  {
    if |s| == 0 then true
    else
      RemThreeZeroIffDivides(s[0]);
      RemThree(s[0]) == 0 && AreAllElementsMultiplesOfThree(s[1..])
  }

  // ---------------------------------------------------------------- examples

  /** Worked examples of `areAllElementsUnique`. */
  lemma UniqueExamples()
    ensures AreAllElementsUnique([1, 2, 3, 4, 5]) && !AreAllElementsUnique([1, 2, 2, 4, 5])
  {
    var dup := [1, 2, 2, 4, 5];
    assert dup[1] == dup[2];
  }

  /** Worked examples of `isStrictlyIncreasing`. */
  lemma IncreasingExamples()
    ensures IsStrictlyIncreasing([1, 2, 3, 4, 5]) && !IsStrictlyIncreasing([1, 3, 2, 4, 5])
    ensures IsStrictlyIncreasing([])
  {
  }

  /** Worked examples of `isPalindrome`. */
  lemma PalindromeExamples()
    ensures IsPalindrome([1, 2, 3, 2, 1]) && !IsPalindrome([1, 2, 3, 4, 5])
  {
  }

  /** Worked examples of `areAllElementsMultiplesOfThree`. */
  lemma MultiplesOfThreeExamples()
    ensures AreAllElementsMultiplesOfThree([3, 6, 9, 12, 15])
    ensures !AreAllElementsMultiplesOfThree([3, 6, 9, 12, 14])
  {
  }
}
