/** Naming a rule: the phrase matcher `checkRule`, the scoring table
    `getRuleScore` and the `scoreInfo` text built from that table. */
module Rules {
  import opened Numbers
  import opened Text

  /** The rules are numbered 1 to 5; any other number names no rule. */
  predicate IsRule(n: int)
  {
    1 <= n <= 5
  }

  /** The accepted wordings of each rule, as a table. */
  function Synonyms(n: int): (names: set<string>)
    ensures !IsRule(n) <==> names == {}
  {
    match n
    case 1 => {"피보나치수열", "피보나치"}
    case 2 => {"모두다르다", "모두다름", "전부다르다", "전부다름", "중복제거", "중복제외", "중복없음"}
    case 3 => {"뒷숫자가앞숫자보다크다", "뒤의숫자가바로앞의숫자보다크다", "뒷숫자가바로앞숫자보다크다"}
    case 4 => {"대칭을이룬다", "좌우대칭", "대칭"}
    case 5 => {"3의배수"}
    case _ => {}
  }

  /** `checkRule`: an exact comparison of the phrase against each accepted
      wording of rule `n`: it accepts a phrase exactly when the phrase is one
      of the listed wordings of that rule, and unknown rule numbers accept
      nothing. */
  function CheckRule(n: int, phrase: string): (r: bool)
    ensures r <==> phrase in Synonyms(n)
    ensures !IsRule(n) ==> !r
  {
    match n
    case 1 => phrase == "피보나치수열" || phrase == "피보나치"
    case 2 => phrase == "모두다르다" || phrase == "모두다름" || phrase == "전부다르다" || phrase == "전부다름"
              || phrase == "중복제거" || phrase == "중복제외" || phrase == "중복없음"
    case 3 => phrase == "뒷숫자가앞숫자보다크다" || phrase == "뒤의숫자가바로앞의숫자보다크다"
              || phrase == "뒷숫자가바로앞숫자보다크다"
    case 4 => phrase == "대칭을이룬다" || phrase == "좌우대칭" || phrase == "대칭"
    case 5 => phrase == "3의배수"
    case _ => false
  }

  /** No accepted wording contains the `:` that separates a submission. */
  lemma SynonymsHaveNoColon(n: int, phrase: string)
    requires phrase in Synonyms(n)
    ensures ':' !in phrase
  {
    assert IsRule(n);
    if n == 2 {
      assert phrase in {"모두다르다", "모두다름", "전부다르다", "전부다름", "중복제거", "중복제외", "중복없음"};
    } else if n == 3 {
      assert phrase in {"뒷숫자가앞숫자보다크다", "뒤의숫자가바로앞의숫자보다크다", "뒷숫자가바로앞숫자보다크다"};
    }
  }

  /** Rules 1 to 5 have 2, 7, 3, 3 and 1 distinct wordings. */
  lemma SynonymCounts()
    ensures |Synonyms(1)| == 2 && |Synonyms(2)| == 7 && |Synonyms(3)| == 3
    ensures |Synonyms(4)| == 3 && |Synonyms(5)| == 1
  {
    assert "피보나치수열" != "피보나치";
  }

  /** No phrase names two different rules. */
  lemma NamesAreUnambiguous(m: int, n: int, phrase: string)
    requires CheckRule(m, phrase) && CheckRule(n, phrase)
    ensures m == n
  {
  }

  /** `getRuleScore`: the score change for naming rule `n` right or wrong. */
  function RuleScore(n: int, passed: bool): (delta: int)
    ensures IsRule(n) && passed ==> delta == 10 * n + 10
    ensures IsRule(n) && !passed ==> delta == -1
    ensures !IsRule(n) ==> delta == 0
  {
    match n
    case 1 => if passed then 20 else -1
    case 2 => if passed then 30 else -1
    case 3 => if passed then 40 else -1
    case 4 => if passed then 50 else -1
    case 5 => if passed then 60 else -1
    case _ => 0
  }

  /** A right answer is worth more for a later rule, and always more than a wrong one. */
  lemma RuleScoreOrdering(m: int, n: int)
    requires IsRule(m) && IsRule(n) && m < n
    ensures RuleScore(m, true) < RuleScore(n, true)
    ensures RuleScore(m, false) == RuleScore(n, false) < 0 < RuleScore(m, true)
  {
  }

  lemma NumeralHasNoNewline(n: int)
    ensures '\n' !in IntToString(n)
  {
  }

  /** One line of `scoreInfo`: `Rule<n>. Pass (<pass>) / Fail (<fail>)`, with
      the pass and fail scores of the table. It never holds a line break. */
  function ScoreLine(n: int): (line: string)
    ensures '\n' !in line
  {
    var number := IntToString(n);
    var pass := IntToString(RuleScore(n, true));
    var fail := IntToString(RuleScore(n, false));
    NumeralHasNoNewline(n);
    NumeralHasNoNewline(RuleScore(n, true));
    NumeralHasNoNewline(RuleScore(n, false));
    "Rule" + number + ". Pass (" + pass + ") / Fail (" + fail + ")"
  }

  /** The line of rule `n` shows `10 * n + 10` for a pass and `-1` for a fail. */
  lemma ScoreLineScores(n: int)
    requires IsRule(n)
    ensures ScoreLine(n) == "Rule" + IntToString(n) + ". Pass (" + IntToString(10 * n + 10) + ") / Fail (-1)"
  {
    var pass := RuleScore(n, true);
    var fail := RuleScore(n, false);
    assert pass == 10 * n + 10 && fail == -1;
    assert IntToString(fail) == "-1";
  }

  /** The lines of `scoreInfo` after its header, for rules 1 to 5. */
  function ScoreLines(): seq<string>
  {
    seq(5, i => ScoreLine(i + 1))
  }

  /** `scoreInfo`: a header line, then one line per rule. */
  function ScoreInfo(): (text: string)
  {
    "<Score Map>" + "\n" + Join(ScoreLines(), '\n')
  }

  /** The `i`-th rule line is the line of rule `i + 1`, so it holds no line break. */
  lemma ScoreLineAt(i: nat)
    requires i < 5
    ensures |ScoreLines()| == 5
    ensures ScoreLines()[i] == ScoreLine(i + 1) && '\n' !in ScoreLines()[i]
  {
  }

  /** The rule lines hold no line break, and the `i`-th is the line of rule `i + 1`. */
  lemma ScoreLinesFree()
    ensures |ScoreLines()| == 5 && FreeOf(ScoreLines(), '\n')
    ensures forall i :: 0 <= i < 5 ==> ScoreLines()[i] == ScoreLine(i + 1)
  {
    ScoreLineAt(0);
    forall i | 0 <= i < 5
      ensures ScoreLines()[i] == ScoreLine(i + 1) && '\n' !in ScoreLines()[i]
    {
      ScoreLineAt(i);
    }
  }

  /** Cut at its line breaks, `scoreInfo` is the header followed by the line
      of each rule in order. */
  lemma ScoreInfoLines()
    ensures Split(ScoreInfo(), '\n') == ["<Score Map>"] + ScoreLines()
    ensures |ScoreLines()| == 5
    ensures forall i :: 0 <= i < 5 ==> ScoreLines()[i] == ScoreLine(i + 1)
  {
    ScoreLinesFree();
    SplitHeader("<Score Map>", ScoreLines(), '\n');
  }
}
