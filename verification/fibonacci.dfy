/** Rule 1: `isPartOfFibonacciSequence` and the unused `isFibonacciSequence`. */
module Fibonacci {
  import opened Wrappers

  /** The Fibonacci numbers 0, 1, 1, 2, 3, 5, ... */
  function Fib(n: nat): (f: nat)
  {
    if n < 2 then n else Fib(n - 1) + Fib(n - 2)
  }

  lemma {:induction false} FibPositive(n: nat)
    requires n >= 1
    ensures Fib(n) >= 1
  {
    if n > 2 {
      FibPositive(n - 1);
    }
  }

  /** The Fibonacci numbers never decrease ... */
  lemma {:induction false} FibMonotone(i: nat, j: nat)
    requires i <= j
    ensures Fib(i) <= Fib(j)
  {
    if i < j {
      FibMonotone(i, j - 1);
    }
  }

  /** ... and strictly increase from index 2 on. */
  lemma {:induction false} FibStrict(i: nat, j: nat)
    requires 2 <= i < j
    ensures Fib(i) < Fib(j)
  {
    FibPositive(j - 2);
    FibMonotone(i, j - 1);
  }

  /** `f` holds the first `|f|` Fibonacci numbers. */
  predicate IsFibPrefix(f: seq<int>)
  {
    forall i :: 0 <= i < |f| ==> f[i] == Fib(i)
  }

  /** The generation loop: append the sum of the last two values while the
      last value is below `target`. It stops because the sum of the last two
      values grows by at least one per step. */
  function Grow(f: seq<int>, target: int): (r: seq<int>)
    requires |f| >= 2 && IsFibPrefix(f)
    requires forall i :: 1 <= i < |f| - 1 ==> f[i] < target
    ensures |r| >= |f| && IsFibPrefix(r)
    ensures r[|r| - 1] >= target
    ensures forall i :: 1 <= i < |r| - 1 ==> r[i] < target
    decreases 2 * target - (f[|f| - 1] + f[|f| - 2])
  {
    if f[|f| - 1] < target then
      FibPositive(|f| - 1);
      FibMonotone(|f| - 2, |f| - 1);
      Grow(f + [f[|f| - 1] + f[|f| - 2]], target)
    else f
  }

  /** The list `fib` of the original: 0, 1, 1, 2, ... cut right after the
      first value at index 1 or later that reaches `target`. */
  function FibPrefix(target: int): (f: seq<int>)
    ensures |f| >= 2 && IsFibPrefix(f)
    ensures f[|f| - 1] >= target
    ensures forall i :: 1 <= i < |f| - 1 ==> f[i] < target
  {
    Grow([0, 1], target)
  }

  /** `indexOf`: the first position holding `x`, if any. */
  function IndexOf(f: seq<int>, x: int, from: nat := 0): (r: Option<nat>)
    requires from <= |f|
    requires forall j :: 0 <= j < from ==> f[j] != x
    ensures r.Some? ==> r.value < |f| && f[r.value] == x
                        && forall j :: 0 <= j < r.value ==> f[j] != x
    ensures r.None? ==> forall j :: 0 <= j < |f| ==> f[j] != x
    decreases |f| - from
  {
    if from == |f| then None
    else if f[from] == x then Some(from)
    else IndexOf(f, x, from + 1)
  }

  /** The comparison loop: every `s[i]` from `i` on equals `f[k + i]`. */
  function MatchesFrom(s: seq<int>, f: seq<int>, k: nat, i: nat): (r: bool)
    requires i <= |s| && k + |s| <= |f|
    ensures r <==> forall j :: i <= j < |s| ==> s[j] == f[k + j]
    decreases |s| - i
  {
    if i == |s| then true
    else if s[i] != f[k + i] then false
    else MatchesFrom(s, f, k, i + 1)
  }

  /** `isPartOfFibonacciSequence`: `s` must match the generated prefix
      starting where `s[0]` FIRST occurs in it. */
  function IsPartOfFibonacciSequence(s: seq<int>): (r: bool)
    ensures r ==> |s| > 0
    ensures r ==> IsFibonacciWindow(s)
  {
    if |s| == 0 then false
    else
      var fib := FibPrefix(s[|s| - 1]);
      match IndexOf(fib, s[0])
      case None => false
      case Some(k) =>
        if k + |s| > |fib| then false
        else
          var ok := MatchesFrom(s, fib, k, 0);
          assert ok ==> WindowAt(s, k);
          ok
  }

  /** `s` is the run of Fibonacci numbers starting at index `k`. */
  predicate WindowAt(s: seq<int>, k: nat)
  {
    forall i :: 0 <= i < |s| ==> s[i] == Fib(k + i)
  }

  /** `s` is some contiguous run of the Fibonacci numbers. */
  ghost predicate IsFibonacciWindow(s: seq<int>)
  {
    exists k: nat :: WindowAt(s, k)
  }

  /** `k` is the first index at which `x` occurs among the Fibonacci numbers. */
  predicate IsFirstFibIndex(k: nat, x: int)
  {
    Fib(k) == x && forall j :: 0 <= j < k ==> Fib(j) != x
  }

  /** The conditions under which `isPartOfFibonacciSequence` accepts `s`:
      `s` is the Fibonacci run starting at index `k`, the first index of
      `s[0]`, and that run does not end at index 2. */
  predicate AcceptedAt(s: seq<int>, k: nat)
  {
    |s| > 0 && IsFirstFibIndex(k, s[0]) && WindowAt(s, k) && k + |s| != 3
  }

  /** Soundness half of the characterisation. */
  lemma {:induction false} PartIsAcceptedWindow(s: seq<int>)
    requires IsPartOfFibonacciSequence(s)
    ensures AcceptedAt(s, IndexOf(FibPrefix(s[|s| - 1]), s[0]).value)
  {
    var fib := FibPrefix(s[|s| - 1]);
    var k := IndexOf(fib, s[0]).value;
    assert k + |s| <= |fib| && MatchesFrom(s, fib, k, 0);
    forall j | 0 <= j < k
      ensures Fib(j) != s[0]
    {
      assert fib[j] != s[0];
    }
    assert WindowAt(s, k);
  }

  /** The prefix generated for the target `Fib(m)` reaches index `m`,
      except for `m == 2`: there the target is 1 and the prefix stops at [0, 1]. */
  lemma {:induction false} PrefixReaches(m: nat)
    requires m != 2
    ensures m < |FibPrefix(Fib(m))|
  {
    var fib := FibPrefix(Fib(m));
    var n := |fib| - 1;
    if m > n {
      assert fib[n] == Fib(n) >= Fib(m);
      if n >= 2 {
        FibStrict(n, m);
      } else {
        FibStrict(2, m);
      }
      assert false;
    }
  }

  /** `indexOf` finds a value at the first position holding it. */
  lemma IndexOfFirst(f: seq<int>, x: int, k: nat)
    requires k < |f| && f[k] == x
    requires forall j :: 0 <= j < k ==> f[j] != x
    ensures IndexOf(f, x) == Some(k)
  {
  }

  /** The generated prefix holds the Fibonacci run of `s` at `k` in place. */
  lemma {:induction false} PrefixHoldsWindow(s: seq<int>, fib: seq<int>, k: nat)
    requires IsFibPrefix(fib) && k + |s| <= |fib| && WindowAt(s, k)
    ensures forall j :: 0 <= j < |s| ==> s[j] == fib[k + j]
  {
    forall j | 0 <= j < |s|
      ensures s[j] == fib[k + j]
    {
      assert fib[k + j] == Fib(k + j);
    }
  }

  /** Completeness half of the characterisation. */
  lemma {:induction false} AcceptedWindowIsPart(s: seq<int>, k: nat)
    requires AcceptedAt(s, k)
    ensures IsPartOfFibonacciSequence(s)
  {
    var m := k + |s| - 1;
    assert s[|s| - 1] == Fib(m);
    PrefixReaches(m);
    var fib := FibPrefix(s[|s| - 1]);
    assert fib[k] == s[0];
    forall j | 0 <= j < k
      ensures fib[j] != s[0]
    {
      assert fib[j] == Fib(j);
    }
    IndexOfFirst(fib, s[0], k);
    PrefixHoldsWindow(s, fib, k);
    assert MatchesFrom(s, fib, k, 0);
  }

  /** Exact characterisation of `isPartOfFibonacciSequence`. The condition
      `k + |s| != 3` excludes exactly [0, 1, 1] and [1, 1]: for a last value
      of 1 the generated prefix stops at [0, 1]. */
  lemma PartOfFibonacciCharacterization(s: seq<int>)
    ensures IsPartOfFibonacciSequence(s) <==> exists k: nat :: AcceptedAt(s, k)
  {
    if IsPartOfFibonacciSequence(s) {
      PartIsAcceptedWindow(s);
    }
    if k: nat :| AcceptedAt(s, k) {
      AcceptedWindowIsPart(s, k);
    }
  }

  /** On five or more values the `k + |s| != 3` condition is automatic:
      such a sequence is accepted exactly when it is the Fibonacci run that
      starts at the first index of its first value. */
  lemma LongPartOfFibonacci(s: seq<int>)
    ensures |s| >= 5 ==>
      (IsPartOfFibonacciSequence(s) <==> exists k: nat :: IsFirstFibIndex(k, s[0]) && WindowAt(s, k))
  {
    if |s| >= 5 {
      PartOfFibonacciCharacterization(s);
      if k: nat :| IsFirstFibIndex(k, s[0]) && WindowAt(s, k) {
        assert AcceptedAt(s, k);
      }
    }
  }

  /** `[1, 2, 3, 5, 8]` is a run of Fibonacci numbers, but it is rejected:
      the first 1 sits at index 1 and is followed by another 1. */
  lemma WindowStartingAtSecondOneRejected()
    ensures IsFibonacciWindow([1, 2, 3, 5, 8])
    ensures !IsPartOfFibonacciSequence([1, 2, 3, 5, 8])
  {
    var s := [1, 2, 3, 5, 8];
    assert Fib(2) == 1 && Fib(3) == 2 && Fib(4) == 3 && Fib(5) == 5 && Fib(6) == 8;
    assert WindowAt(s, 2);
  }

  /** `[1, 1, 2, 3, 5]` starts at the first 1 and is accepted. */
  lemma WindowStartingAtFirstOneAccepted()
    ensures IsPartOfFibonacciSequence([1, 1, 2, 3, 5])
  {
    var s := [1, 1, 2, 3, 5];
    assert Fib(1) == 1 && Fib(2) == 1 && Fib(3) == 2 && Fib(4) == 3 && Fib(5) == 5;
    assert AcceptedAt(s, 1);
    AcceptedWindowIsPart(s, 1);
  }

  /** The comparison loop of `isFibonacciSequence`, from index `i` on. */
  function FollowsRecurrenceFrom(s: seq<int>, i: nat): (r: bool)
    requires 2 <= i <= |s|
    ensures r <==> forall j :: i <= j < |s| ==> s[j] == s[j - 1] + s[j - 2]
    decreases |s| - i
  {
    if i == |s| then true
    else if s[i] != s[i - 1] + s[i - 2] then false
    else FollowsRecurrenceFrom(s, i + 1)
  }

  /** From 0, 1 on, following the recurrence is being a Fibonacci prefix. */
  lemma {:induction false} RecurrenceIsFibPrefix(s: seq<int>)
    requires |s| >= 2 && s[0] == 0 && s[1] == 1
    ensures FollowsRecurrenceFrom(s, 2) <==> IsFibPrefix(s)
  {
    if FollowsRecurrenceFrom(s, 2) {
      var i := 0;
      while i < |s|
        invariant i <= |s|
        invariant forall j :: 0 <= j < i ==> s[j] == Fib(j)
      {
        if i >= 2 {
          assert s[i] == s[i - 1] + s[i - 2];
          assert s[i - 1] == Fib(i - 1) && s[i - 2] == Fib(i - 2);
        }
        i := i + 1;
      }
    }
    if IsFibPrefix(s) {
      forall j | 2 <= j < |s|
        ensures s[j] == s[j - 1] + s[j - 2]
      {
        assert s[j] == Fib(j) && s[j - 1] == Fib(j - 1) && s[j - 2] == Fib(j - 2);
      }
    }
  }

  /** `isFibonacciSequence` (unused by the original program): it accepts
      exactly the Fibonacci prefixes of length at least two. */
  function IsFibonacciSequence(s: seq<int>): (r: bool)
    ensures r <==> |s| >= 2 && IsFibPrefix(s)
  {
    if |s| < 2 then false
    else if s[0] != 0 || s[1] != 1 then false
    else
      RecurrenceIsFibPrefix(s);
      FollowsRecurrenceFrom(s, 2)
  }

  /** Every Fibonacci prefix accepted by `isFibonacciSequence` is also accepted
      by `isPartOfFibonacciSequence`, except [0, 1, 1]. */
  lemma FibonacciSequenceIsPart(s: seq<int>)
    requires IsFibonacciSequence(s)
    ensures IsPartOfFibonacciSequence(s) <==> |s| != 3
  {
    if |s| != 3 {
      assert AcceptedAt(s, 0);
      AcceptedWindowIsPart(s, 0);
    }
    if IsPartOfFibonacciSequence(s) {
      PartIsAcceptedWindow(s);
    }
  }
}
