/**
 The multi-answer resolve panel (`AnswersResolvePanel` and
 `AnswersResolveOptions`): the resolve mode, the map of chosen answers to
 weights, the state of the resolve button derived from them, and the edits
 the `onChoose` and `onDeselect` handlers make to the map. The answer rows
 this panel draws are handed those handlers but never call them.
 */
module ResolvePanel {
  import opened Optional
  import opened JsNumbers
  import opened Weights

  /** The resolve option: one answer, a weighted split over several, or N/A. */
  datatype Mode = ChooseOne | ChooseMultiple | Cancel

  /** The option's wire name, which is also the outcome of a `cpmm-multi-1` resolution. */
  function ModeName(mode: Mode): (r: string)
    ensures mode == ChooseOne <==> r == "CHOOSE_ONE"
    ensures mode == ChooseMultiple <==> r == "CHOOSE_MULTIPLE"
    ensures mode == Cancel <==> r == "CANCEL"
  {
    match mode
    case ChooseOne => "CHOOSE_ONE"
    case ChooseMultiple => "CHOOSE_MULTIPLE"
    case Cancel => "CANCEL"
  }

  datatype ButtonColor = Yellow | Green | Blue | Indigo

  /** Every chosen answer has a weight above zero (`answers.every(a => chosen[a] > 0)`). */
  predicate AllPositive(m: Weights)
  {
    forall k :: k in m ==> m[k] > 0.0
  }

  /**
   Whether the resolve button is disabled (`getAnswerResolveButtonDisabled`):
   never in cancel mode, with no answer in choose-one mode, and in
   choose-multiple mode whenever the choice may not be submitted.
   */
  predicate ButtonDisabled(mode: Mode, m: Weights)
    ensures mode == Cancel ==> !ButtonDisabled(mode, m)
    ensures mode == ChooseOne ==> (ButtonDisabled(mode, m) <==> m == map[])
    ensures mode == ChooseMultiple ==> (ButtonDisabled(mode, m) <==> !Submittable(mode, m))
  {
    || (mode == ChooseOne && |m| == 0)
    || (mode == ChooseMultiple && (!(|m| > 1) || !AllPositive(m)))
  }

  /**
   When a resolution may be submitted: exactly one answer for choose-one, at least two positively weighted answers for
   choose-multiple, always for cancel.
   */
  ghost predicate Submittable(mode: Mode, m: Weights)
  {
    match mode
    case ChooseOne => |m| == 1
    case ChooseMultiple => |m| >= 2 && AllPositive(m)
    case Cancel => true
  }

  /** The colour of the resolve button (`getAnswerResolveButtonColor`). */
  function ButtonColorOf(mode: Mode, m: Weights): (r: ButtonColor)
    ensures r == Indigo <==> ButtonDisabled(mode, m)
    ensures r == Yellow <==> mode == Cancel
    ensures r == Green <==> mode == ChooseOne && !ButtonDisabled(mode, m)
    ensures r == Blue <==> mode == ChooseMultiple && !ButtonDisabled(mode, m)
  {
    if mode == Cancel then Yellow
    else if mode == ChooseOne && |m| != 0 then Green
    else if mode == ChooseMultiple && |m| > 1 && AllPositive(m) then Blue
    else Indigo
  }

  /**
   The label of the resolve button (`getAnswerResolveButtonLabel`): `N/A`,
   the chosen answer's text, or the number of chosen answers followed by
   ` answers` — a number `parseInt` reads back as the count.
   */
  function ButtonLabel(mode: Mode, chosenText: string, m: Weights): (r: string)
    ensures mode == Cancel ==> r == "N/A"
    ensures mode == ChooseOne ==> r == chosenText
    ensures mode == ChooseMultiple ==> ParseInt(r) == Some(|m|)
    ensures mode == ChooseMultiple ==> |r| > 8 && r[|r| - 8..] == " answers"
    ensures mode == ChooseMultiple ==> forall i :: 0 <= i < |r| - 8 ==> IsDecimalDigit(r[i])
    ensures mode == ChooseMultiple && r[0] == '0' ==> |m| == 0 && r == "0 answers"
  {
    if mode == Cancel then "N/A"
    else if mode == ChooseOne then chosenText
    else
      ParseIntOfNatToString(|m|, " answers");
      CountLabelShape(|m|);
      NatToString(|m|) + " answers"
  }

  /**
   The label `${n} answers` is digits, with no leading zero unless `n` is 0,
   followed by ` answers`.
   */
  lemma CountLabelShape(n: nat)
    ensures var r := NatToString(n) + " answers";
      && |r| > 8 && r[|r| - 8..] == " answers"
      && (forall i :: 0 <= i < |r| - 8 ==> IsDecimalDigit(r[i]))
      && (r[0] == '0' ==> n == 0 && r == "0 answers")
  {
    var count := NatToString(n);
    var r := count + " answers";
    assert r[|r| - 8..] == " answers";
    assert forall i :: 0 <= i < |r| - 8 ==> r[i] == count[i];
    if r[0] == '0' {
      assert count[0] == '0';
      assert count == "0";
      assert r == "0 answers";
    }
  }

  /**
   The panel's state: the resolve option and chosen answers held by
   `AnswersResolvePanel`, and the submitting flag and last error held by
   `AnswersResolveOptions`.
   */
  datatype Panel = Panel(mode: Mode, chosen: Weights, isSubmitting: bool, error: Option<string>)

  /** The panel as first rendered: choose-one, nothing chosen, idle, no error. */
  function InitialPanel(): Panel
  {
    Panel(ChooseOne, map[], false, None)
  }

  /** `b` agrees with `a` on every key other than `id`. */
  ghost predicate SameExcept(a: Weights, b: Weights, id: string)
  {
    && (forall k :: k != id && k in a ==> k in b && b[k] == a[k])
    && (forall k :: k != id && k in b ==> k in a)
  }

  /**
   Selecting a resolve option. The effect that empties the chosen answers
   depends on the option, so it runs only when the option actually changes;
   selecting the current option again leaves the panel as it is.
   */
  function SelectMode(p: Panel, mode: Mode): (r: Panel)
    ensures r.mode == mode
    ensures r.isSubmitting == p.isSubmitting && r.error == p.error
    ensures mode != p.mode ==> |r.chosen| == 0
    ensures mode == p.mode ==> r.chosen == p.chosen
  {
    if mode == p.mode then p else p.(mode := mode, chosen := map[])
  }

  /**
   `onChoose(answerId, prob)`: in choose-one the choice becomes that answer
   alone at weight 100; otherwise the answer gets weight `prob`, or is dropped
   when `prob` is undefined, and no other answer changes.
   */
  function Choose(p: Panel, answerId: string, prob: Option<real>): (r: Panel)
    ensures r.mode == p.mode && r.isSubmitting == p.isSubmitting && r.error == p.error
    ensures p.mode == ChooseOne ==> r.chosen.Keys == {answerId} && r.chosen[answerId] == 100.0
    ensures p.mode != ChooseOne ==> SameExcept(p.chosen, r.chosen, answerId)
    ensures p.mode != ChooseOne && prob.Some? ==> answerId in r.chosen && r.chosen[answerId] == prob.value
    ensures p.mode != ChooseOne && prob.None? ==> answerId !in r.chosen
  {
    if p.mode == ChooseOne then p.(chosen := map[answerId := 100.0])
    else match prob
      case None => p.(chosen := p.chosen - {answerId})
      case Some(w) => p.(chosen := p.chosen[answerId := w])
  }

  /** `onDeselect(answerId)`: the answer is dropped, in any mode, and nothing else changes. */
  function Deselect(p: Panel, answerId: string): (r: Panel)
    ensures r.mode == p.mode && r.isSubmitting == p.isSubmitting && r.error == p.error
    ensures answerId !in r.chosen
    ensures SameExcept(p.chosen, r.chosen, answerId)
  {
    p.(chosen := p.chosen - {answerId})
  }

  /**
   The calls that change the panel's state: selecting an option, and the
   `onChoose` and `onDeselect` handlers the panel hands to each answer row.
   */
  datatype Edit = SetMode(mode: Mode) | ChooseAnswer(answerId: string, prob: Option<real>) | DeselectAnswer(answerId: string)

  function Apply(p: Panel, e: Edit): Panel
  {
    match e
    case SetMode(mode) => SelectMode(p, mode)
    case ChooseAnswer(id, prob) => Choose(p, id, prob)
    case DeselectAnswer(id) => Deselect(p, id)
  }

  /** The panel after the edits, applied first to last. */
  function Replay(p: Panel, edits: seq<Edit>): Panel
    decreases |edits|
  {
    if |edits| == 0 then p else Replay(Apply(p, edits[0]), edits[1..])
  }

  /** In choose-one mode at most one answer is chosen, and at weight 100. */
  ghost predicate ChooseOneShape(p: Panel)
  {
    p.mode == ChooseOne ==> |p.chosen| <= 1 && forall k :: k in p.chosen ==> p.chosen[k] == 100.0
  }

  lemma ApplyKeepsChooseOneShape(p: Panel, e: Edit)
    requires ChooseOneShape(p)
    ensures ChooseOneShape(Apply(p, e))
  {
    match e
    case SetMode(mode) =>
    case ChooseAnswer(id, prob) =>
      if p.mode == ChooseOne {
        assert Choose(p, id, prob).chosen.Keys == {id};
      }
    case DeselectAnswer(id) =>
      var r := Deselect(p, id);
      assert r.chosen.Keys <= p.chosen.Keys;
      assert |r.chosen.Keys| <= |p.chosen.Keys| by {
        SubsetSize(r.chosen.Keys, p.chosen.Keys);
      }
  }

  lemma SubsetSize<T>(a: set<T>, b: set<T>)
    requires a <= b
    ensures |a| <= |b|
  {
    assert b == a + (b - a);
  }

  /**
   Whatever sequence of option changes and handler calls is made, a panel in
   choose-one mode never holds more than one chosen answer, and that answer
   has weight 100.
   */
  lemma {:induction false} ReplayKeepsChooseOneShape(p: Panel, edits: seq<Edit>)
    requires ChooseOneShape(p)
    ensures ChooseOneShape(Replay(p, edits))
    decreases |edits|
  {
    if |edits| > 0 {
      ApplyKeepsChooseOneShape(p, edits[0]);
      ReplayKeepsChooseOneShape(Apply(p, edits[0]), edits[1..]);
    }
  }

  /**
   On every panel those calls can reach, the button is disabled exactly when
   the submission rule `Submittable` forbids it.
   */
  lemma ReachableDisabledMatchesTable(edits: seq<Edit>)
    ensures var p := Replay(InitialPanel(), edits);
      ButtonDisabled(p.mode, p.chosen) <==> !Submittable(p.mode, p.chosen)
  {
    ReplayKeepsChooseOneShape(InitialPanel(), edits);
  }

  /** Whether every edit only selects an option. */
  predicate OnlyOptionChanges(edits: seq<Edit>)
  {
    forall i :: 0 <= i < |edits| ==> edits[i].SetMode?
  }

  /**
   The answer rows drawn by this panel never call `onChoose` or `onDeselect`,
   so only option changes happen: the choice stays empty, and the button is
   disabled in choose-one and choose-multiple mode and enabled only for
   cancel.
   */
  lemma {:induction false} OptionChangesKeepChoiceEmpty(p: Panel, edits: seq<Edit>)
    requires p.chosen == map[] && OnlyOptionChanges(edits)
    ensures var q := Replay(p, edits);
      && q.chosen == map[]
      && (ButtonDisabled(q.mode, q.chosen) <==> q.mode != Cancel)
    decreases |edits|
  {
    if |edits| > 0 {
      assert OnlyOptionChanges(edits[1..]) by {
        forall i | 0 <= i < |edits| - 1
          ensures edits[1..][i].SetMode?
        {
          assert edits[1..][i] == edits[i + 1];
        }
      }
      OptionChangesKeepChoiceEmpty(Apply(p, edits[0]), edits[1..]);
    }
  }

  /**
   Outside choose-one, a single positively weighted answer leaves the button
   disabled, a second one enables it, and deselecting the second disables it
   again.
   */
  lemma SecondAnswerTogglesButton(p: Panel, a: string, wa: real, b: string, wb: real)
    requires p.mode == ChooseMultiple && p.chosen == map[a := wa]
    requires a != b && wa > 0.0 && wb > 0.0
    ensures ButtonDisabled(p.mode, p.chosen)
    ensures var q := Choose(p, b, Some(wb));
      && !ButtonDisabled(q.mode, q.chosen)
      && ButtonDisabled(Deselect(q, b).mode, Deselect(q, b).chosen)
  {
    var q := Choose(p, b, Some(wb));
    assert q.chosen == map[a := wa, b := wb];
    assert q.chosen.Keys == {a, b};
    assert Deselect(q, b).chosen == map[a := wa];
  }

  /**
   Reselecting the current option does not clear the choice: the effect that
   clears it only fires on a change of option.
   */
  lemma ReselectingModeKeepsChoice(p: Panel, answerId: string)
    requires p.mode == ChooseOne
    ensures var q := SelectMode(Choose(SelectMode(p, ChooseOne), answerId, None), ChooseOne);
      answerId in q.chosen && q.chosen[answerId] == 100.0
  {
  }

  /** The kind of choice `showChoice` asks an answer row for: radio buttons, check boxes, or none. */
  datatype ChoiceControl = Radio | Checkbox

  /**
   `showChoice`: `'radio'` for an unresolved choose-one market, `'checkbox'`
   for an unresolved choose-multiple market, undefined otherwise.
   */
  function ShowChoice(resolved: bool, mode: Mode): (r: Option<ChoiceControl>)
    ensures r == Some(Radio) <==> !resolved && mode == ChooseOne
    ensures r == Some(Checkbox) <==> !resolved && mode == ChooseMultiple
    ensures r.None? <==> resolved || mode == Cancel
  {
    if resolved then None
    else match mode
      case ChooseOne => Some(Radio)
      case ChooseMultiple => Some(Checkbox)
      case Cancel => None
  }

  /**
   The `showChoice` value handed to a row matches what a call to `onChoose`
   does: in radio mode it leaves exactly one answer chosen, in check-box mode
   it adds the answer and keeps the others.
   */
  lemma ChoiceControlMatchesChoose(p: Panel, resolved: bool, answerId: string, w: real)
    ensures ShowChoice(resolved, p.mode) == Some(Radio) ==>
      Choose(p, answerId, Some(w)).chosen.Keys == {answerId}
    ensures ShowChoice(resolved, p.mode) == Some(Checkbox) ==>
      Choose(p, answerId, Some(w)).chosen.Keys == p.chosen.Keys + {answerId}
  {
  }

  /**
   `chosenShare` of an answer row: its weight over the total, or 0 when the
   weight or the total is missing or zero (both are JavaScript-falsy then).
   */
  function ChosenShare(chosenProb: Option<real>, total: Option<real>): (r: real)
    ensures chosenProb.Some? && chosenProb.value != 0.0 && total.Some? && total.value != 0.0 ==>
      r * total.value == chosenProb.value
    ensures chosenProb.None? || chosenProb.value == 0.0 || total.None? || total.value == 0.0 ==>
      r == 0.0
  {
    match (chosenProb, total)
    case (Some(p), Some(t)) => if p != 0.0 && t != 0.0 then p / t else 0.0
    case _ => 0.0
  }

  /** How a market is priced and settled: `cpmm-multi-1`, or the legacy mechanism. */
  datatype Mechanism = CpmmMulti1 | Dpm2

  /**
   The two fields of a market's answer record the panel reads; the e-mail
   module's `Emails.Answer` is another projection of the same record.
   */
  datatype Answer = Answer(id: string, text: string)

  /** The parts of a multi-answer market the panel reads. */
  datatype MultiContract = MultiContract(
    id: string,
    question: string,
    mechanism: Mechanism,
    isFreeResponse: bool,
    answers: seq<Answer>,
    resolved: bool)

  /** The position of the first answer with id `id` (`answers.find`). */
  function FindAnswer(answers: seq<Answer>, id: string): (r: Option<nat>)
    ensures r.Some? ==> r.value < |answers| && answers[r.value].id == id
    ensures r.Some? ==> forall j :: 0 <= j < r.value ==> answers[j].id != id
    ensures r.None? ==> forall j :: 0 <= j < |answers| ==> answers[j].id != id
    decreases |answers|
  {
    if |answers| == 0 then None
    else if answers[0].id == id then Some(0)
    else match FindAnswer(answers[1..], id)
      case None => None
      case Some(i) => Some(i + 1)
  }

  /**
   The answer the first chosen id names. For `cpmm-multi-1` it is looked up
   by id; for the legacy mechanism the id is read with `parseInt` and used as
   a position, shifted down by one in a free-response market. With nothing
   chosen the legacy lookup reads `parseInt(undefined)`, which is `NaN`.
   */
  function ChosenAnswer(c: MultiContract, answerIds: seq<string>): (r: Option<Answer>)
    ensures c.mechanism == CpmmMulti1 && r.Some? ==>
      |answerIds| > 0 && r.value in c.answers && r.value.id == answerIds[0]
    ensures c.mechanism == CpmmMulti1 && |answerIds| > 0 && (exists a :: a in c.answers && a.id == answerIds[0]) ==>
      r.Some?
    ensures c.mechanism == Dpm2 && r.Some? ==> r.value in c.answers
  {
    if c.mechanism == CpmmMulti1 then
      if |answerIds| == 0 then None
      else match FindAnswer(c.answers, answerIds[0])
        case None => None
        case Some(i) => Some(c.answers[i])
    else
      LegacyAnswerAt(c, ParseInt(if |answerIds| == 0 then "undefined" else answerIds[0]))
  }

  /**
   The legacy answer at a parsed number: `answers[n]`, or `answers[n - 1]` in
   a free-response market; nothing for `NaN` or a position outside the list.
   */
  function LegacyAnswerAt(c: MultiContract, parsed: Option<int>): (r: Option<Answer>)
    ensures r.Some? ==> r.value in c.answers
  {
    match parsed
    case None => None
    case Some(n) =>
      var i := (if c.isFreeResponse then -1 else 0) + n;
      if 0 <= i < |c.answers| then Some(c.answers[i]) else None
  }

  /** `chosenText`: the chosen answer's text, or `an answer` when there is none. */
  function ChosenText(c: MultiContract, answerIds: seq<string>): (r: string)
    ensures r == "an answer" || exists a :: a in c.answers && a.text == r
    ensures ChosenAnswer(c, answerIds).Some? ==> r == ChosenAnswer(c, answerIds).value.text
    ensures ChosenAnswer(c, answerIds).None? ==> r == "an answer"
  {
    match ChosenAnswer(c, answerIds)
    case Some(a) => a.text
    case None => "an answer"
  }

  /** With nothing chosen, either mechanism labels the choice `an answer`. */
  lemma EmptyChoiceIsAnAnswer(c: MultiContract)
    ensures ChosenText(c, []) == "an answer"
  {
    var u := "undefined";
    assert u[0] == 'u';
    assert TrimStart(u) == u;
    assert DigitPrefix(u, false) == [];
    assert ParseInt(u) == None;
  }

  /**
   A legacy answer id that is the decimal position `n` names the answer at
   position `n`, or `n - 1` in a free-response market.
   */
  lemma LegacyChosenAnswerByPosition(c: MultiContract, n: nat, answerIds: seq<string>)
    requires c.mechanism == Dpm2 && |answerIds| > 0 && answerIds[0] == NatToString(n)
    requires var i := (if c.isFreeResponse then -1 else 0) + n; 0 <= i < |c.answers|
    ensures ChosenAnswer(c, answerIds) == Some(c.answers[(if c.isFreeResponse then -1 else 0) + n])
  {
    ParseIntOfDecimal(n);
    assert ChosenAnswer(c, answerIds) == LegacyAnswerAt(c, Some(n));
  }

  /**
   On `cpmm-multi-1` the label names the first answer whose id is the first
   chosen id, and is `an answer` when no answer has that id.
   */
  lemma CpmmChosenTextByID(c: MultiContract, answerIds: seq<string>)
    requires c.mechanism == CpmmMulti1 && |answerIds| > 0
    ensures FindAnswer(c.answers, answerIds[0]).Some? ==>
      ChosenText(c, answerIds) == c.answers[FindAnswer(c.answers, answerIds[0]).value].text
    ensures FindAnswer(c.answers, answerIds[0]).None? ==> ChosenText(c, answerIds) == "an answer"
  {
  }

  /**
   On the legacy mechanism, a first chosen id that is the decimal position
   `n` labels the choice with the text of the answer at `n`, or at `n - 1` in
   a free-response market, and with `an answer` when that position is outside
   the list.
   */
  lemma LegacyChosenTextByPosition(c: MultiContract, n: nat, answerIds: seq<string>)
    requires c.mechanism == Dpm2 && |answerIds| > 0 && answerIds[0] == NatToString(n)
    ensures var i := (if c.isFreeResponse then -1 else 0) + n;
      && (0 <= i < |c.answers| ==> ChosenText(c, answerIds) == c.answers[i].text)
      && (!(0 <= i < |c.answers|) ==> ChosenText(c, answerIds) == "an answer")
  {
    var i := (if c.isFreeResponse then -1 else 0) + n;
    if 0 <= i < |c.answers| {
      LegacyChosenAnswerByPosition(c, n, answerIds);
    } else {
      ParseIntOfDecimal(n);
      assert ChosenAnswer(c, answerIds) == LegacyAnswerAt(c, Some(n)) == None;
    }
  }
}
