/**
 Submitting a multi-answer resolution (`onResolve`): the two cardinality
 guards, the normalisation of the chosen weights to percentages, the shape of
 the request for each mechanism, and how the panel records the call's result.
 */
module Resolve {
  import opened Optional
  import opened JsNumbers
  import opened Weights
  import opened ResolvePanel

  /** One chosen answer and its weight as a percentage of the total. */
  datatype Share = Share(answerId: string, pct: Number)

  /** Each listed answer with `100 * weight / total`, in the order listed. */
  function Percentages(m: Weights, keys: seq<string>, total: real): (r: seq<Share>)
    requires AllIn(keys, m)
    ensures |r| == |keys|
    ensures forall i :: 0 <= i < |keys| ==>
      r[i].answerId == keys[i] && r[i].pct == Divide(100.0 * m[keys[i]], total)
    decreases |keys|
  {
    if |keys| == 0 then []
    else [Share(keys[0], Divide(100.0 * m[keys[0]], total))] + Percentages(m, keys[1..], total)
  }

  /**
   The chosen weights normalised against their sum: one share per listed
   answer, in the order listed, each its weight's part of 100; when the
   weights sum to zero every share is `NaN` or infinite.
   */
  function Normalize(m: Weights, keys: seq<string>): (r: seq<Share>)
    requires AllIn(keys, m)
    ensures |r| == |keys|
    ensures forall i :: 0 <= i < |keys| ==> r[i].answerId == keys[i]
    ensures SumOver(m, keys) != 0.0 ==> forall i :: 0 <= i < |keys| ==>
      r[i].pct.Finite? && r[i].pct.value * SumOver(m, keys) == 100.0 * m[keys[i]]
    ensures SumOver(m, keys) == 0.0 ==> forall i :: 0 <= i < |keys| ==> !r[i].pct.Finite?
  {
    Percentages(m, keys, SumOver(m, keys))
  }

  predicate AllFinite(shares: seq<Share>)
  {
    forall i :: 0 <= i < |shares| ==> shares[i].pct.Finite?
  }

  /** The sum of a list of finite percentages. */
  function SumPct(shares: seq<Share>): real
    requires AllFinite(shares)
    decreases |shares|
  {
    if |shares| == 0 then 0.0 else shares[0].pct.value + SumPct(shares[1..])
  }

  lemma ScaledSumStep(w: real, s: real, t: real)
    requires t != 0.0
    ensures (100.0 * w) / t + (100.0 * s) / t == 100.0 * (w + s) / t
  {
  }

  lemma {:induction false} PercentagesSum(m: Weights, keys: seq<string>, t: real)
    requires AllIn(keys, m) && t != 0.0
    ensures AllFinite(Percentages(m, keys, t))
    ensures SumPct(Percentages(m, keys, t)) == 100.0 * SumOver(m, keys) / t
    decreases |keys|
  {
    var r := Percentages(m, keys, t);
    if |keys| > 0 {
      PercentagesSum(m, keys[1..], t);
      assert r[1..] == Percentages(m, keys[1..], t);
      ScaledSumStep(m[keys[0]], SumOver(m, keys[1..]), t);
    }
  }

  lemma ScaledSelfQuotient(t: real)
    requires t != 0.0
    ensures 100.0 * t / t == 100.0
  {
  }

  /** Whenever the weights do not sum to zero, the percentages are finite and sum to exactly 100. */
  lemma NormalizedSumIs100(m: Weights, keys: seq<string>)
    requires AllIn(keys, m) && SumOver(m, keys) != 0.0
    ensures AllFinite(Normalize(m, keys))
    ensures SumPct(Normalize(m, keys)) == 100.0
  {
    PercentagesSum(m, keys, SumOver(m, keys));
    ScaledSelfQuotient(SumOver(m, keys));
  }

  lemma DivideByPositiveMonotone(a: real, b: real, t: real)
    requires t > 0.0
    ensures a <= b <==> a / t <= b / t
    ensures a < b <==> a / t < b / t
  {
    assert a == (a / t) * t && b == (b / t) * t;
    if a / t <= b / t {
      assert (a / t) * t <= (b / t) * t;
    }
    if a / t < b / t {
      assert (a / t) * t < (b / t) * t;
    }
  }

  /** With a positive total, the percentages keep the order of the weights, both ways. */
  lemma NormalizePreservesOrder(m: Weights, keys: seq<string>, i: nat, j: nat)
    requires AllIn(keys, m) && SumOver(m, keys) > 0.0
    requires i < |keys| && j < |keys|
    ensures var r := Normalize(m, keys);
      && r[i].pct.Finite? && r[j].pct.Finite?
      && (m[keys[i]] <= m[keys[j]] <==> r[i].pct.value <= r[j].pct.value)
      && (m[keys[i]] < m[keys[j]] <==> r[i].pct.value < r[j].pct.value)
  {
    var t := SumOver(m, keys);
    var wi, wj := m[keys[i]], m[keys[j]];
    assert wi <= wj <==> 100.0 * wi <= 100.0 * wj;
    assert wi < wj <==> 100.0 * wi < 100.0 * wj;
    DivideByPositiveMonotone(100.0 * wi, 100.0 * wj, t);
  }

  /** Weights that already sum to 100 are their own percentages. */
  lemma NormalizeAtTotal100(m: Weights, keys: seq<string>, i: nat)
    requires AllIn(keys, m) && SumOver(m, keys) == 100.0 && i < |keys|
    ensures Normalize(m, keys)[i].pct == Finite(m[keys[i]])
  {
  }

  /**
   An answer's percentage does not depend on the order the chosen answers
   are listed in.
   */
  lemma NormalizeOrderIndependent(m: Weights, a: seq<string>, b: seq<string>, i: nat, j: nat)
    requires Enumerates(a, m) && Enumerates(b, m)
    requires i < |a| && j < |b| && a[i] == b[j]
    ensures Normalize(m, a)[i] == Normalize(m, b)[j]
  {
    SumOverEnumerationsAgree(m, a, b);
    var w := m[a[i]];
    assert Normalize(m, a)[i] == Share(a[i], Divide(100.0 * w, SumOver(m, a)));
    assert Normalize(m, b)[j] == Share(b[j], Divide(100.0 * w, SumOver(m, b)));
  }

  lemma ScaledQuotient(w: real, t: real)
    requires t != 0.0
    ensures 100.0 * (w / t) == (100.0 * w) / t
  {
  }

  /**
   The share bar an answer row draws is its percentage divided by 100,
   whenever the weights do not sum to zero.
   */
  lemma ChosenShareMatchesPercentage(m: Weights, keys: seq<string>, i: nat)
    requires AllIn(keys, m) && SumOver(m, keys) != 0.0 && i < |keys|
    ensures var r := Normalize(m, keys);
      r[i].pct.Finite? && 100.0 * ChosenShare(Some(m[keys[i]]), Some(SumOver(m, keys))) == r[i].pct.value
  {
    var t := SumOver(m, keys);
    var w := m[keys[i]];
    assert Normalize(m, keys)[i].pct == Finite((100.0 * w) / t);
    if w != 0.0 {
      assert ChosenShare(Some(w), Some(t)) == w / t;
      ScaledQuotient(w, t);
    } else {
      assert (100.0 * w) / t == 0.0;
    }
  }

  /** The resolution's outcome: a name (`CHOOSE_ONE`, `MKT`, `CANCEL`, ...) or a legacy answer number. */
  datatype Outcome = OutcomeName(name: string) | OutcomeIndex(index: Option<int>)

  /** One entry of `resolutions`: a string answer id for `cpmm-multi-1`, a parsed number for the legacy mechanism. */
  datatype Resolution =
    | CpmmResolution(answerId: string, pct: Number)
    | LegacyResolution(answer: Option<int>, pct: Number)

  /** The body of `market/:contractId/resolve`, with the undefined properties removed. */
  datatype ResolveRequest = ResolveRequest(
    contractId: string,
    outcome: Outcome,
    resolutions: Option<seq<Resolution>>,
    answerId: Option<string>)

  /** The normalised shares in the mechanism's encoding. */
  function Resolutions(m: Weights, keys: seq<string>, mechanism: Mechanism): (r: seq<Resolution>)
    requires AllIn(keys, m)
    ensures |r| == |keys|
    ensures forall i :: 0 <= i < |keys| ==>
      r[i].pct == Normalize(m, keys)[i].pct
      && (mechanism == CpmmMulti1 ==> r[i] == CpmmResolution(keys[i], r[i].pct))
      && (mechanism == Dpm2 ==> r[i] == LegacyResolution(ParseInt(keys[i]), r[i].pct))
  {
    var shares := Normalize(m, keys);
    seq(|shares|, i requires 0 <= i < |shares| =>
      if mechanism == CpmmMulti1 then CpmmResolution(shares[i].answerId, shares[i].pct)
      else LegacyResolution(ParseInt(shares[i].answerId), shares[i].pct))
  }

  /**
   The outcome property of a legacy request: a parsed answer number exactly
   in choose-one mode; otherwise a name, which for cancel is the option's own
   name and for choose-multiple is `MKT` rather than the option's name.
   */
  function LegacyOutcome(mode: Mode, keys: seq<string>): (r: Outcome)
    requires mode == ChooseOne ==> |keys| > 0
    ensures r.OutcomeIndex? <==> mode == ChooseOne
    ensures mode == ChooseOne ==> r.index == ParseInt(keys[0])
    ensures mode == Cancel ==> r == OutcomeName(ModeName(Cancel))
    ensures mode == ChooseMultiple ==> r == OutcomeName("MKT") && r != OutcomeName(ModeName(mode))
  {
    match mode
    case ChooseOne => OutcomeIndex(ParseInt(keys[0]))
    case ChooseMultiple => OutcomeName("MKT")
    case Cancel => OutcomeName("CANCEL")
  }

  /** The request body for the given mode and mechanism, once the guards have passed. */
  function Request(mode: Mode, m: Weights, keys: seq<string>, mechanism: Mechanism, contractId: string): (r: ResolveRequest)
    requires AllIn(keys, m)
    requires mode == ChooseOne ==> |keys| > 0
    ensures r.contractId == contractId
    ensures r.resolutions.Some? <==> mode == ChooseMultiple
  {
    var resolutions := if mode == ChooseMultiple then Some(Resolutions(m, keys, mechanism)) else None;
    match mechanism
    case CpmmMulti1 =>
      ResolveRequest(contractId, OutcomeName(ModeName(mode)), resolutions,
                     if mode == ChooseOne then Some(keys[0]) else None)
    case Dpm2 =>
      ResolveRequest(contractId, LegacyOutcome(mode, keys), resolutions, None)
  }

  /**
   `onResolve` up to the API call: nothing is sent in choose-one mode unless
   exactly one answer is chosen, nor in choose-multiple mode with fewer than
   two; the weights themselves are not checked again. `keys` is the order
   `Object.keys` lists the chosen answers in.
   */
  function OnResolve(mode: Mode, m: Weights, keys: seq<string>, mechanism: Mechanism, contractId: string): (r: Option<ResolveRequest>)
    requires Enumerates(keys, m)
    ensures r.None? <==> (mode == ChooseOne && |m| != 1) || (mode == ChooseMultiple && |m| < 2)
    ensures r.Some? ==> r.value.contractId == contractId
    ensures r.Some? ==> (r.value.resolutions.Some? <==> mode == ChooseMultiple)
  {
    EnumerationSize(keys, m);
    if mode == ChooseOne && |keys| != 1 then None
    else if mode == ChooseMultiple && |keys| < 2 then None
    else Some(Request(mode, m, keys, mechanism, contractId))
  }

  /** With one key listed, the map holds that key and nothing else. */
  lemma SingleKey(m: Weights, keys: seq<string>)
    requires Enumerates(keys, m) && |keys| == 1
    ensures m.Keys == {keys[0]}
  {
    forall k | k in m
      ensures k == keys[0]
    {
      assert k in keys;
    }
  }

  /**
   A choose-multiple request carries one resolution per chosen answer, in
   listing order, each with the answer's normalised percentage; these sum to
   100 whenever the weights do not sum to zero.
   */
  lemma MultipleRequestCarriesShares(m: Weights, keys: seq<string>, mechanism: Mechanism, contractId: string)
    requires Enumerates(keys, m) && |m| >= 2
    ensures var r := OnResolve(ChooseMultiple, m, keys, mechanism, contractId);
      && r.Some? && r.value.resolutions.Some?
      && |r.value.resolutions.value| == |m|
      && (forall i :: 0 <= i < |keys| ==> r.value.resolutions.value[i].pct == Normalize(m, keys)[i].pct)
      && (SumOver(m, keys) != 0.0 ==> AllFinite(Normalize(m, keys)) && SumPct(Normalize(m, keys)) == 100.0)
  {
    EnumerationSize(keys, m);
    if SumOver(m, keys) != 0.0 {
      NormalizedSumIs100(m, keys);
    }
  }

  /**
   On `cpmm-multi-1` the outcome is the mode's name, the answer id is sent
   only in choose-one mode and is then the one chosen answer, and each
   resolution names a chosen answer by its string id.
   */
  lemma CpmmRequestShape(mode: Mode, m: Weights, keys: seq<string>, contractId: string)
    requires Enumerates(keys, m)
    requires OnResolve(mode, m, keys, CpmmMulti1, contractId).Some?
    ensures var r := OnResolve(mode, m, keys, CpmmMulti1, contractId).value;
      && r.outcome == OutcomeName(ModeName(mode))
      && (r.answerId.Some? <==> mode == ChooseOne)
      && (mode == ChooseOne ==> m.Keys == {r.answerId.value})
      && (mode == ChooseMultiple ==> forall i :: 0 <= i < |keys| ==>
            r.resolutions.value[i] == CpmmResolution(keys[i], Normalize(m, keys)[i].pct) && keys[i] in m)
  {
    EnumerationSize(keys, m);
    if mode == ChooseOne {
      SingleKey(m, keys);
    }
  }

  /**
   On the legacy mechanism no answer id is sent; the outcome is the parsed
   number of the one chosen answer in choose-one mode, `MKT` in
   choose-multiple mode and `CANCEL` otherwise, and each resolution names its
   answer by the parsed number of its id.
   */
  lemma LegacyRequestShape(mode: Mode, m: Weights, keys: seq<string>, contractId: string)
    requires Enumerates(keys, m)
    requires OnResolve(mode, m, keys, Dpm2, contractId).Some?
    ensures var r := OnResolve(mode, m, keys, Dpm2, contractId).value;
      && r.answerId.None?
      && (mode == ChooseOne ==> m.Keys == {keys[0]} && r.outcome == OutcomeIndex(ParseInt(keys[0])))
      && (mode == ChooseMultiple ==> r.outcome == OutcomeName("MKT"))
      && (mode == Cancel ==> r.outcome == OutcomeName("CANCEL"))
      && (mode == ChooseMultiple ==> forall i :: 0 <= i < |keys| ==>
            r.resolutions.value[i] == LegacyResolution(ParseInt(keys[i]), Normalize(m, keys)[i].pct))
  {
    EnumerationSize(keys, m);
    if mode == ChooseOne {
      SingleKey(m, keys);
    }
  }

  /** Whatever `Submittable` allows is sent. */
  lemma SubmittableIsSent(mode: Mode, m: Weights, keys: seq<string>, mechanism: Mechanism, contractId: string)
    requires Enumerates(keys, m) && Submittable(mode, m)
    ensures OnResolve(mode, m, keys, mechanism, contractId).Some?
  {
  }

  /**
   The weights are only checked by the button: two chosen answers at weight
   zero disable the button, yet `onResolve` still sends a choose-multiple
   request, and its percentages are `NaN`.
   */
  lemma ZeroWeightsAreStillSent(mechanism: Mechanism, contractId: string)
    ensures var m := map["a" := 0.0, "b" := 0.0];
      && ButtonDisabled(ChooseMultiple, m)
      && Enumerates(["a", "b"], m)
      && var r := OnResolve(ChooseMultiple, m, ["a", "b"], mechanism, contractId);
        r.Some? && r.value.resolutions.Some? && |r.value.resolutions.value| == 2
        && r.value.resolutions.value[0].pct == NotANumber
        && r.value.resolutions.value[1].pct == NotANumber
  {
    var m := map["a" := 0.0, "b" := 0.0];
    var keys := ["a", "b"];
    assert m.Keys == {"a", "b"};
    assert forall k :: k in m ==> k in keys;
    assert Enumerates(keys, m);
    assert !AllPositive(m) by { assert m["a"] == 0.0; }
    assert SumOver(m, keys) == 0.0;
    MultipleRequestCarriesShares(m, keys, mechanism, contractId);
  }

  /** A cancel request is the same whatever answers happen to be chosen. */
  lemma CancelIgnoresChoice(m1: Weights, k1: seq<string>, m2: Weights, k2: seq<string>, mechanism: Mechanism, contractId: string)
    requires Enumerates(k1, m1) && Enumerates(k2, m2)
    ensures OnResolve(Cancel, m1, k1, mechanism, contractId) == OnResolve(Cancel, m2, k2, mechanism, contractId)
    ensures OnResolve(Cancel, m1, k1, mechanism, contractId).value.resolutions.None?
  {
  }

  /**
   On the legacy mechanism, choosing the one answer whose id is the decimal
   number `n` sends outcome `n` and no resolutions.
   */
  lemma LegacyChooseOneSendsNumber(n: nat, w: real, contractId: string)
    ensures var id := NatToString(n);
      && Enumerates([id], map[id := w])
      && OnResolve(ChooseOne, map[id := w], [id], Dpm2, contractId)
         == Some(ResolveRequest(contractId, OutcomeIndex(Some(n)), None, None))
  {
    var id := NatToString(n);
    var m := map[id := w];
    var keys := [id];
    ParseIntOfDecimal(n);
    assert forall k :: k in m ==> k in keys;
    assert Enumerates(keys, m);
    assert |m| == 1 by { assert m.Keys == {id}; }
    assert LegacyOutcome(ChooseOne, keys) == OutcomeIndex(Some(n));
    assert Request(ChooseOne, m, keys, Dpm2, contractId) == ResolveRequest(contractId, OutcomeIndex(Some(n)), None, None);
  }

  /**
   What became of the API call. An `APIError` is shown as its `toString()`,
   the error's name, a colon and its message; `shown` is that text.
   */
  datatype ApiResult = Resolved | ApiFailure(shown: string) | UnexpectedFailure

  /**
   Pressing resolve: the request `onResolve` builds, if any, and the panel
   marked as submitting when one is sent. There is no guard against a call
   already in flight, and the choice is left as it is.
   */
  function StartResolve(p: Panel, keys: seq<string>, mechanism: Mechanism, contractId: string): (r: (Option<ResolveRequest>, Panel))
    requires Enumerates(keys, p.chosen)
    ensures r.0.None? <==> (p.mode == ChooseOne && |p.chosen| != 1) || (p.mode == ChooseMultiple && |p.chosen| < 2)
    ensures r.1.mode == p.mode && r.1.chosen == p.chosen && r.1.error == p.error
    ensures r.1.isSubmitting <==> p.isSubmitting || r.0.Some?
    ensures r.0 == OnResolve(p.mode, p.chosen, keys, mechanism, contractId)
  {
    var request := OnResolve(p.mode, p.chosen, keys, mechanism, contractId);
    if request.Some? then (request, p.(isSubmitting := true)) else (request, p)
  }

  /**
   The API call returning: the panel is no longer submitting; an API error
   is shown as its text and any other failure as a generic message; success
   leaves the last error and the choice as they were.
   */
  function FinishResolve(p: Panel, result: ApiResult): (r: Panel)
    ensures !r.isSubmitting && r.mode == p.mode && r.chosen == p.chosen
    ensures result == Resolved ==> r.error == p.error
    ensures result.ApiFailure? ==> r.error == Some(result.shown)
    ensures result == UnexpectedFailure ==> r.error == Some("Error resolving question")
  {
    match result
    case Resolved => p.(isSubmitting := false)
    case ApiFailure(shown) => p.(isSubmitting := false, error := Some(shown))
    case UnexpectedFailure => p.(isSubmitting := false, error := Some("Error resolving question"))
  }

  /**
   Calling `onResolve` again while a request is in flight builds another
   request: only the button, not `onResolve`, reads the submitting flag.
   */
  lemma NoInFlightGuard(p: Panel, keys: seq<string>, mechanism: Mechanism, contractId: string)
    requires Enumerates(keys, p.chosen)
    requires StartResolve(p, keys, mechanism, contractId).0.Some?
    ensures var q := StartResolve(p, keys, mechanism, contractId).1;
      q.isSubmitting && StartResolve(q, keys, mechanism, contractId).0.Some?
  {
  }

  /**
   A full resolution attempt, whatever its result, leaves the mode and the
   chosen answers unchanged and the panel idle, so the choice-one invariant
   survives it.
   */
  lemma ResolveAttemptKeepsChoice(p: Panel, keys: seq<string>, mechanism: Mechanism, contractId: string, result: ApiResult)
    requires Enumerates(keys, p.chosen) && ChooseOneShape(p)
    ensures var q := FinishResolve(StartResolve(p, keys, mechanism, contractId).1, result);
      q.mode == p.mode && q.chosen == p.chosen && !q.isSubmitting && ChooseOneShape(q)
  {
  }
}
