/** `submit` as a sequential state machine: the two answer fields, the
    persisted score store, the score on screen and the result text. */
module Session {
  import opened Wrappers
  import opened Text
  import opened Numbers
  import opened Rules
  import opened Evaluator

  /** The persisted key-value store (`SharedPreferences`), integer entries only. */
  datatype Store = Store(entries: map<string, int>)

  /** `getPreference(key, default)`: the stored value, or the default when
      nothing was saved under the key. */
  function Get(store: Store, key: string, default: int): (v: int)
    ensures key !in store.entries ==> v == default
    ensures key in store.entries ==> v in store.entries.Values
  {
    if key in store.entries then store.entries[key] else default
  }

  /** `savePreference(key, value)`: the next read of `key` returns `value`,
      whatever the default, and no other key changes. */
  function Set(store: Store, key: string, value: int): (r: Store)
    ensures r.entries.Keys == store.entries.Keys + {key}
    ensures forall k, d :: Get(r, k, d) == if k == key then value else Get(store, k, d)
  {
    Store(store.entries[key := value])
  }

  const ScoreKey: string := "score"

  /** The text shown before the first submission. */
  const InitialText: string := "결과가 여기에 표시됩니다"

  /** What the view model holds: the store, the score on screen (`_score`)
      and the result text (`_resultText`). */
  datatype Screen = Screen(store: Store, score: int, resultText: string)

  /** What one press of submit does: the error notification (`errorEvent`),
      an exception escaping `submit`, or a shown result. */
  datatype Effect = ErrorShown | Thrown | ResultShown(outcome: Outcome)

  datatype Step = Step(screen: Screen, effect: Effect)

  /** The view model as constructed: the score is read from the store, 0 if absent. */
  function Start(store: Store): (sc: Screen)
    ensures InSync(sc) && sc.store == store
  {
    Screen(store, Get(store, ScoreKey, 0), InitialText)
  }

  /** The score on screen is the stored one. */
  predicate InSync(sc: Screen)
  {
    sc.score == Get(sc.store, ScoreKey, 0)
  }

  /** `"Pass (<delta>)"` or `"Fail (<delta>)"`: the verdict can be read off
      the first letter, and the score change parsed back from between the
      parentheses. */
  function ResultText(o: Outcome): (t: string)
    ensures |t| > 7 && t[5] == '(' && t[|t| - 1] == ')'
    ensures t[0] == 'P' <==> o.passed
    ensures ParseInt(t[6..|t| - 1]) == Some(o.delta)
  {
    var d := IntToString(o.delta);
    var t := (if o.passed then "Pass" else "Fail") + " (" + d + ")";
    assert t[6..|t| - 1] == d;
    ParseIntToString(o.delta);
    t
  }

  /** Two different outcomes never show the same text. */
  lemma ResultTextInjective(o1: Outcome, o2: Outcome)
    requires ResultText(o1) == ResultText(o2)
    ensures o1 == o2
  {
    var t := ResultText(o1);
    assert Some(o1.delta) == ParseInt(t[6..|t| - 1]) == Some(o2.delta);
  }

  /** A pass reads `"Pass (<delta>)"`. */
  lemma PassText(delta: int)
    ensures ResultText(Outcome(true, delta)) == "Pass (" + IntToString(delta) + ")"
  {
    assert "Pass" + " (" == "Pass (";
  }

  /** The tail of `submit`: the error for a `null` result, the exception
      passed on, or the outcome added to the score, saved and shown. */
  function Show(sc: Screen, e: Evaluation): (r: Step)
    ensures r.effect.ErrorShown? <==> e.Absent?
    ensures r.effect.Thrown? <==> e.Raised?
    ensures r.effect.ResultShown? <==> e.Evaluated?
    ensures !e.Evaluated? ==> r.screen == sc
    ensures e.Evaluated? ==>
      r.effect.outcome == e.outcome
      && r.screen.score == sc.score + e.outcome.delta
      && Get(r.screen.store, ScoreKey, 0) == sc.score + e.outcome.delta
      && r.screen.resultText == ResultText(e.outcome)
    ensures e.Evaluated? ==>
      r.screen.store == Set(sc.store, ScoreKey, sc.score + e.outcome.delta)
      && forall k, d :: k != ScoreKey ==> Get(r.screen.store, k, d) == Get(sc.store, k, d)
  {
    match e
    case Absent => Step(sc, ErrorShown)
    case Raised => Step(sc, Thrown)
    case Evaluated(o) =>
      var score := sc.score + o.delta;
      Step(Screen(Set(sc.store, ScoreKey, score), score, ResultText(o)), ResultShown(o))
  }

  /** The head of `submit`: both fields set and blank is reported like a
      `null` result; otherwise the non-blank rule field, or else the sequence
      field, goes to `calculateResult`. */
  function Evaluate(ruleField: Option<string>, sequenceField: Option<string>): (e: Evaluation)
    ensures e.Absent? <==>
      || (ruleField.Some? && IsBlank(ruleField.value) && sequenceField.Some? && IsBlank(sequenceField.value))
      || ((ruleField.None? || IsBlank(ruleField.value)) && sequenceField.None?)
    ensures !(ruleField.Some? && IsBlank(ruleField.value) && sequenceField.Some? && IsBlank(sequenceField.value)) ==>
      var isRule := ruleField.Some? && !IsBlank(ruleField.value);
      e == CalculateResult(isRule, if isRule then ruleField else sequenceField)
  {
    if ruleField.Some? && IsBlank(ruleField.value) && sequenceField.Some? && IsBlank(sequenceField.value) then
      Absent
    else
      var isRule := ruleField.Some? && !IsBlank(ruleField.value);
      var field := if isRule then ruleField else sequenceField;
      var e := CalculateResult(isRule, field);
      assert e.Absent? <==> field.None?;
      e
  }

  /** `submit`. A field is `None` when it was never set (`ObservableField.get()`
      returns `null`). The blank check fires only when BOTH fields are set and
      blank; a non-blank rule field takes priority over the sequence field. */
  function Submit(sc: Screen, ruleField: Option<string>, sequenceField: Option<string>): (r: Step)
    ensures r.effect.ErrorShown? <==>
      || (ruleField.Some? && IsBlank(ruleField.value) && sequenceField.Some? && IsBlank(sequenceField.value))
      || ((ruleField.None? || IsBlank(ruleField.value)) && sequenceField.None?)
    ensures !r.effect.ResultShown? ==> r.screen == sc
    ensures r.effect.ResultShown? ==>
      var o := r.effect.outcome;
      r.screen.score == sc.score + o.delta
      && Get(r.screen.store, ScoreKey, 0) == sc.score + o.delta
      && r.screen.resultText == ResultText(o)
    ensures r.effect.ResultShown? ==> r.screen.store == Set(sc.store, ScoreKey, r.screen.score)
    ensures InSync(sc) ==> InSync(r.screen)
    ensures !r.effect.ErrorShown? ==>
      var isRule := ruleField.Some? && !IsBlank(ruleField.value);
      var e := CalculateResult(isRule, if isRule then ruleField else sequenceField);
      (r.effect.Thrown? <==> e.Raised?)
      && (r.effect.ResultShown? <==> e.Evaluated?)
      && (r.effect.ResultShown? ==> r.effect.outcome == e.outcome)
  {
    Show(sc, Evaluate(ruleField, sequenceField))
  }

  /** A submission touches no stored entry other than the score: every other
      key reads as it did before, whatever the default. */
  lemma SubmitKeepsOtherEntries(sc: Screen, ruleField: Option<string>, sequenceField: Option<string>, key: string, default: int)
    requires key != ScoreKey
    ensures Get(Submit(sc, ruleField, sequenceField).screen.store, key, default) == Get(sc.store, key, default)
  {
  }

  /** Answering through the sequence field (rule field unset or blank) never
      changes the score. */
  lemma SequenceAnswerKeepsScore(sc: Screen, ruleField: Option<string>, sequenceField: Option<string>)
    requires ruleField.None? || IsBlank(ruleField.value)
    ensures Submit(sc, ruleField, sequenceField).screen.score == sc.score
  {
  }

  /** A non-blank rule field decides the submission alone: whatever the
      sequence field holds is ignored. */
  lemma RuleFieldTakesPriority(sc: Screen, rule: string, s1: Option<string>, s2: Option<string>)
    requires !IsBlank(rule)
    ensures Submit(sc, Some(rule), s1) == Submit(sc, Some(rule), s2)
  {
    var e := CalculateResult(true, Some(rule));
    assert Submit(sc, Some(rule), s1) == Show(sc, e);
    assert Submit(sc, Some(rule), s2) == Show(sc, e);
  }

  /** With the rule field never set and a blank sequence field, the blank
      check does not fire; the blank text reaches `Integer.parseInt`, which throws. */
  lemma UnsetRuleBlankSequenceRaises(sc: Screen, blank: string)
    requires IsBlank(blank)
    ensures Submit(sc, None, Some(blank)).effect == Thrown
  {
    var parts := Split(blank, ':');
    var first := parts[0];
    assert first == blank[..|first|];
    if |first| > 0 {
      assert IsWhitespace(first[0]);
    }
    assert !IsNumeral(first);
  }

  /** Both fields unset: `calculateResult` gets `null` and the error is shown. */
  lemma NothingEnteredShowsError(sc: Screen)
    ensures Submit(sc, None, None) == Step(sc, ErrorShown)
  {
  }

  /** Typing `"<n>:<phrase>"` into the rule field: the verdict is membership
      of the phrase among the rule's wordings, its score change is added to
      the shown and the stored score, and its text is shown. */
  lemma TypedRuleNameScores(sc: Screen, n: int, phrase: string)
    requires ':' !in phrase
    ensures var o := Outcome(phrase in Synonyms(n), RuleScore(n, phrase in Synonyms(n)));
            var r := Submit(sc, Some(IntToString(n) + ":" + phrase), None);
            r.effect == ResultShown(o)
            && r.screen.score == sc.score + o.delta
            && Get(r.screen.store, ScoreKey, 0) == r.screen.score
            && r.screen.resultText == ResultText(o)
  {
    var text := IntToString(n) + ":" + phrase;
    var passed := phrase in Synonyms(n);
    var o := Outcome(passed, RuleScore(n, passed));
    assert Evaluate(Some(text), None) == Evaluated(o) by {
      assert !IsBlank(text) by {
        assert text[|IntToString(n)|] == ':';
      }
      assert CalculateResult(true, Some(text)) == Evaluated(o) by {
        assert text == text + "";
        TypedRuleAnswer(n, phrase, "");
      }
    }
    assert Submit(sc, Some(text), None) == Show(sc, Evaluated(o));
  }

  /** Naming rule `n` correctly through the rule field adds its pass score to
      the shown and stored score, and shows "Pass (<score>)". */
  lemma RightRuleNameScores(sc: Screen, n: int, phrase: string)
    requires IsRule(n) && phrase in Synonyms(n)
    ensures var r := Submit(sc, Some(IntToString(n) + ":" + phrase), None);
            r.effect == ResultShown(Outcome(true, 10 * n + 10))
            && r.screen.score == sc.score + 10 * n + 10
            && r.screen.resultText == "Pass (" + IntToString(10 * n + 10) + ")"
  {
    assert ':' !in phrase by {
      SynonymsHaveNoColon(n, phrase);
    }
    var passed := phrase in Synonyms(n);
    assert passed;
    TypedRuleNameScores(sc, n, phrase);
    var o := Outcome(true, 10 * n + 10);
    assert Outcome(passed, RuleScore(n, passed)) == o;
    PassText(10 * n + 10);
  }
}
