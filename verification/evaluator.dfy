/** `calculateResult` and `checkSequence`: parse the `"<number>:<answer>"`
    submission and either match a rule name or classify a sequence. */
module Evaluator {
  import opened Wrappers
  import opened Text
  import opened Numbers
  import opened Rules
  import opened Fibonacci
  import opened Classifiers

  /** The `Pair<Boolean, Int>` of the original: passed or not, and the score change. */
  datatype Outcome = Outcome(passed: bool, delta: int)

  /** What `calculateResult` does with a submission: returns `null` (only for
      a `null` string), throws (a malformed number or a missing `:`), or
      returns an outcome. */
  datatype Evaluation = Absent | Raised | Evaluated(outcome: Outcome)

  predicate AllNumerals(tokens: seq<string>)
  {
    forall i :: 0 <= i < |tokens| ==> IsNumeral(tokens[i])
  }

  /** `map { Integer.parseInt(it) }`: `None` as soon as one token is not a numeral. */
  function ParseAll(tokens: seq<string>): (r: Option<seq<int>>)
    ensures r.Some? <==> AllNumerals(tokens)
    ensures r.Some? ==> |r.value| == |tokens|
                        && forall i :: 0 <= i < |tokens| ==> ParseInt(tokens[i]) == Some(r.value[i])
  {
    if |tokens| == 0 then Some([])
    else
      match ParseInt(tokens[0])
      case None => None
      case Some(x) =>
        match ParseAll(tokens[1..])
        case None => None
        case Some(xs) => Some([x] + xs)
  }

  /** What rule `n` asks of a sequence of at least five values, stated
      declaratively. For rule 1 the run must start at the FIRST index of
      `xs[0]` among the Fibonacci numbers. */
  ghost predicate Satisfies(n: int, xs: seq<int>)
  {
    || (n == 1 && |xs| > 0 && exists k: nat :: IsFirstFibIndex(k, xs[0]) && WindowAt(xs, k))
    || (n == 2 && NoDuplicates(xs))
    || (n == 3 && Sorted(xs))
    || (n == 4 && xs == Reverse(xs))
    || (n == 5 && AllDivisibleByThree(xs))
  }

  /** The `when (ruleNumber)` dispatch of `checkSequence`, after its length
      test: on sequences of at least five values it agrees with the
      declarative rules, and an unknown rule number accepts nothing. */
  function Classify(n: int, xs: seq<int>): (r: bool)
    ensures |xs| >= 5 ==> (r <==> Satisfies(n, xs))
    ensures r ==> IsRule(n)
  {
    LongPartOfFibonacci(xs);
    AdjacentIncreasingIsSorted(xs);
    match n
    case 1 => IsPartOfFibonacciSequence(xs)
    case 2 => AreAllElementsUnique(xs)
    case 3 => IsStrictlyIncreasing(xs)
    case 4 => IsPalindrome(xs)
    case 5 => AreAllElementsMultiplesOfThree(xs)
    case _ => false
  }

  /** `checkSequence`: `None` stands for the `NumberFormatException` raised
      when a `_`-separated token is not a numeral; that happens before the
      length test and whatever the rule number. */
  function CheckSequence(n: int, answer: string): (r: Option<bool>)
    ensures r.Some? <==> AllNumerals(Split(answer, '_'))
    ensures r.Some? ==> (r.value <==> |Split(answer, '_')| >= 5 && Satisfies(n, ParseAll(Split(answer, '_')).value))
    ensures r == Some(true) ==> IsRule(n)
  {
    var tokens := Split(answer, '_');
    var parsed := ParseAll(tokens);
    if parsed.None? then
      None
    else
      var xs := parsed.value;
      if |xs| < 5 then Some(false)
      else
        Some(Classify(n, xs))
  }

  /** `calculateResult`: split on `:`, parse the first piece as the rule
      number, take the second piece as the answer (later pieces are ignored),
      then match or classify. Only a right or wrong rule NAME changes the
      score; a sequence answer always scores 0. */
  function CalculateResult(isRule: bool, solution: Option<string>): (r: Evaluation)
    ensures solution.None? <==> r.Absent?
    ensures solution.Some? ==>
      var parts := Split(solution.value, ':');
      (r.Raised? <==> !IsNumeral(parts[0]) || |parts| < 2
                      || (!isRule && CheckSequence(ParseInt(parts[0]).value, parts[1]).None?))
      && (r.Evaluated? && isRule ==>
            var n := ParseInt(parts[0]).value;
            (r.outcome.passed <==> parts[1] in Synonyms(n))
            && r.outcome.delta == (if !IsRule(n) then 0 else if r.outcome.passed then 10 * n + 10 else -1))
      && (r.Evaluated? && !isRule ==>
            var n := ParseInt(parts[0]).value;
            r.outcome.delta == 0
            && Some(r.outcome.passed) == CheckSequence(n, parts[1]))
  {
    match solution
    case None => Absent
    case Some(s) =>
      var parts := Split(s, ':');
      match ParseInt(parts[0])
      case None => Raised
      case Some(n) =>
        if |parts| < 2 then Raised
        else if isRule then
          var passed := CheckRule(n, parts[1]);
          Evaluated(Outcome(passed, RuleScore(n, passed)))
        else
          match CheckSequence(n, parts[1])
          case None => Raised
          case Some(passed) => Evaluated(Outcome(passed, 0))
  }

  // ------------------------------------------------ submissions as typed

  /** A sequence as the player types it: numerals joined by `_`. It never
      holds the `:` that ends the answer piece of a submission. */
  function Numerals(xs: seq<int>): (s: string)
    ensures ':' !in s
  {
    var tokens := Tokens(xs);
    assert FreeOf(tokens, ':');
    Join(tokens, '_')
  }

  /** The numeral of each value. */
  function Tokens(xs: seq<int>): (ts: seq<string>)
    ensures |ts| == |xs|
    ensures forall i :: 0 <= i < |xs| ==> ts[i] == IntToString(xs[i])
  {
    if |xs| == 0 then [] else [IntToString(xs[0])] + Tokens(xs[1..])
  }

  /** Round trip of the sequence format: splitting on `_` and parsing every
      token gives back the typed sequence. The empty sequence is the
      exception: it types as "", whose one token is not a numeral. */
  lemma ParseNumerals(xs: seq<int>)
    requires |xs| > 0
    ensures ParseAll(Split(Numerals(xs), '_')) == Some(xs)
  {
    var tokens := Tokens(xs);
    forall i | 0 <= i < |tokens|
      ensures '_' !in tokens[i] && ParseInt(tokens[i]) == Some(xs[i])
    {
      ParseIntToString(xs[i]);
    }
    SplitJoin(tokens, '_');
    var ys := ParseAll(tokens).value;
    assert forall i :: 0 <= i < |xs| ==> Some(ys[i]) == ParseInt(tokens[i]) == Some(xs[i]);
    assert ys == xs;
  }

  /** The first `:`-piece of `num + ":" + a + rest`, where `a` has no `:` and
      `rest` is empty or starts a new piece, is `num` and the second is `a`. */
  lemma SplitSubmission(num: string, a: string, rest: string)
    requires ':' !in num && ':' !in a
    requires rest == "" || rest[0] == ':'
    ensures var parts := Split(num + ":" + a + rest, ':');
            |parts| >= 2 && parts[0] == num && parts[1] == a
  {
    var tail := a + rest;
    assert num + ":" + a + rest == num + [':'] + tail;
    SplitCons(num, ':', tail);
    FirstPiece(a, rest);
  }

  /** The first `:`-piece of `a + rest` is `a` when `a` has no `:` and `rest`
      is empty or starts with `:`. */
  lemma FirstPiece(a: string, rest: string)
    requires ':' !in a
    requires rest == "" || rest[0] == ':'
    ensures Split(a + rest, ':')[0] == a
  {
    if rest == "" {
      assert a + rest == a;
      SplitFree(a, ':');
    } else {
      assert a + rest == a + [':'] + rest[1..];
      SplitCons(a, ':', rest[1..]);
    }
  }

  /** Naming rule `n` by typing `"<n>:<phrase>"`: the verdict is membership
      of the phrase among the rule's wordings, scored by the table. */
  lemma TypedRuleAnswer(n: int, phrase: string, rest: string)
    requires ':' !in phrase
    requires rest == "" || rest[0] == ':'
    ensures var passed := phrase in Synonyms(n);
            CalculateResult(true, Some(IntToString(n) + ":" + phrase + rest))
            == Evaluated(Outcome(passed, RuleScore(n, passed)))
  {
    SplitSubmission(IntToString(n), phrase, rest);
    ParseIntToString(n);
  }

  /** Testing a typed sequence against rule `n`: it passes exactly when it
      has at least five values and meets the rule, and it never scores. */
  lemma TypedSequenceAnswer(n: int, xs: seq<int>, rest: string)
    requires |xs| > 0
    requires rest == "" || rest[0] == ':'
    ensures CalculateResult(false, Some(IntToString(n) + ":" + Numerals(xs) + rest))
            == Evaluated(Outcome(|xs| >= 5 && Satisfies(n, xs), 0))
  {
    SplitSubmission(IntToString(n), Numerals(xs), rest);
    ParseIntToString(n);
    ParseNumerals(xs);
  }

  /** Worked example: naming rule 1 right scores 20. */
  lemma RightNameExample()
    ensures CalculateResult(true, Some("1:피보나치")) == Evaluated(Outcome(true, 20))
  {
    var typed := IntToString(1) + ":" + "피보나치" + "";
    assert "1:피보나치" == typed;
    assert CalculateResult(true, Some(typed)) == Evaluated(Outcome(true, 20)) by {
      TypedRuleAnswer(1, "피보나치", "");
    }
  }

  /** Worked example: naming rule 1 wrong costs 1. */
  lemma WrongNameExample()
    ensures CalculateResult(true, Some("1:아무거나")) == Evaluated(Outcome(false, -1))
  {
    var typed := IntToString(1) + ":" + "아무거나" + "";
    assert "1:아무거나" == typed;
    assert CalculateResult(true, Some(typed)) == Evaluated(Outcome(false, -1)) by {
      TypedRuleAnswer(1, "아무거나", "");
    }
  }

  /** Worked example: a rule number that is not a numeral makes `parseInt` throw. */
  lemma BadNumberExample()
    ensures CalculateResult(true, Some("x:abc")) == Raised
  {
    assert "x:abc" == "x" + ":" + "abc" + "";
    SplitSubmission("x", "abc", "");
  }

  /** The numerals of 1 to 5. */
  lemma TokensOneToFive()
    ensures Tokens([1, 2, 3, 4, 5]) == ["1", "2", "3", "4", "5"]
  {
    var xs := [1, 2, 3, 4, 5];
    assert Tokens(xs) == [IntToString(1), IntToString(2), IntToString(3), IntToString(4), IntToString(5)];
    assert IntToString(1) == "1" && IntToString(2) == "2" && IntToString(3) == "3";
    assert IntToString(4) == "4" && IntToString(5) == "5";
  }

  /** 1 to 5 as the player types it. */
  lemma TypedOneToFive()
    ensures Numerals([1, 2, 3, 4, 5]) == "1_2_3_4_5"
  {
    TokensOneToFive();
    var ts := ["1", "2", "3", "4", "5"];
    assert Join(ts[3..], '_') == "4_5";
    assert Join(ts[1..], '_') == "2_3_4_5";
  }

  /** The submission text of 1 to 5 for rule 3. */
  lemma TypedRuleThreeOneToFive()
    ensures IntToString(3) + ":" + Numerals([1, 2, 3, 4, 5]) + "" == "3:1_2_3_4_5"
  {
    TypedOneToFive();
    assert IntToString(3) == "3";
  }

  /** `3:` followed by 1_2_3_4_5 as typed, in sequence mode. */
  lemma TypedIncreasing()
    ensures CalculateResult(false, Some(IntToString(3) + ":" + Numerals([1, 2, 3, 4, 5]) + ""))
            == Evaluated(Outcome(true, 0))
  {
    var xs := [1, 2, 3, 4, 5];
    assert Sorted(xs) by {
      assert AdjacentIncreasing(xs);
      AdjacentIncreasingIsSorted(xs);
    }
    assert |xs| >= 5 && Satisfies(3, xs);
    TypedSequenceAnswer(3, xs, "");
  }

  /** Worked example: 1_2_3_4_5 passes rule 3 (and scores 0). */
  lemma IncreasingExample()
    ensures CalculateResult(false, Some("3:1_2_3_4_5")) == Evaluated(Outcome(true, 0))
  {
    TypedRuleThreeOneToFive();
    TypedIncreasing();
  }

  /** Worked example: 1_2_3 fails rule 3 because it has fewer than five values. */
  lemma ShortSequenceExample()
    ensures CalculateResult(false, Some("3:1_2_3")) == Evaluated(Outcome(false, 0))
  {
    var xs := [1, 2, 3];
    assert IntToString(3) == "3";
    assert Tokens(xs) == ["1", "2", "3"];
    assert Numerals(xs) == "1_2_3";
    assert "3:1_2_3" == IntToString(3) + ":" + Numerals(xs) + "";
    TypedSequenceAnswer(3, xs, "");
  }
}
