/** The books again, from the terminals' own fields: which reports every total and every row adds up. */
module AccountingFields {
  import opened Prelude
  import opened Accounting

  // ----- What the terminals say -----

  /** The positions of the terminals that pass a test. */
  function Where(ts: seq<Terminal>, test: Terminal -> bool): set<nat> {
    set k: nat | k < |ts| && test(ts[k])
  }

  /** The sum of one report field over the terminals that pass a test; no report adds nothing. */
  function Reported(ts: seq<Terminal>, field: Report -> word, test: Terminal -> bool): nat {
    if ts == [] then 0
    else
      var t := ts[|ts| - 1];
      Reported(ts[..|ts| - 1], field, test) + if test(t) && t.report.Some? then field(t.report.value) else 0
  }

  /** The sum of the nonnegative charges. */
  function ChargedCost(ts: seq<Terminal>, test: Terminal -> bool): real {
    if ts == [] then 0.0
    else
      var t := ts[|ts| - 1];
      ChargedCost(ts[..|ts| - 1], test) + if test(t) && HasCharge(t) then t.report.value.charge.cost else 0.0
  }

  predicate HasCharge(t: Terminal) {
    match t.report
    case None => false
    case Some(Report(_, _, _, _, Charged(cost))) => cost >= 0.0
    case Some(_) => false
  }

  /** The model answered under its own nonempty name, or it was asked and no name came back. */
  predicate IsBilledTo(t: Terminal, model: string) {
    || (t.answered == Some(model) && model != "")
    || (t.answered in {None, Some("")} && t.requested == model)
  }

  /** `usage` holds the capped totals of the terminals that pass `test`, each from its own field. */
  predicate AddsUp(usage: Usage, ts: seq<Terminal>, test: Terminal -> bool, maxCost: real) {
    && usage.input == Min(WORD_MAX, Reported(ts, (r: Report) => r.input, test))
    && usage.output == Min(WORD_MAX, Reported(ts, (r: Report) => r.output, test))
    && usage.reasoning == Min(WORD_MAX, Reported(ts, (r: Report) => r.reasoning, test))
    && usage.cached == Min(WORD_MAX, Reported(ts, (r: Report) => r.cached, test))
    && usage.attempted == Min(WORD_MAX, |Where(ts, test)|)
    && usage.succeeded == Min(WORD_MAX, |Where(ts, t => test(t) && t.ending == Success)|)
    && usage.errored == Min(WORD_MAX, |Where(ts, t => test(t) && t.ending != Success)|)
    && usage.declined == Min(WORD_MAX, |Where(ts, t => test(t) && (t.refused || t.ending == Refusal))|)
    && usage.cost == MinReal(maxCost, ChargedCost(ts, test))
  }

  // ----- One terminal -----

  lemma WhereOneMore(ts: seq<Terminal>, test: Terminal -> bool)
    requires ts != []
    ensures |Where(ts, test)| == |Where(ts[..|ts| - 1], test)| + if test(ts[|ts| - 1]) then 1 else 0
  {
    var n := |ts| - 1;
    var before := Where(ts[..n], test);
    assert Where(ts, test) == if test(ts[n]) then before + {n} else before;
  }

  /** What one terminal contributes, field by field. */
  lemma OneTerminal(t: Terminal)
    ensures var more := Contribution(t);
      && (t.report.None? ==> more.input == more.output == more.reasoning == more.cached == 0)
      && (t.report.Some? ==>
            && more.input == t.report.value.input && more.output == t.report.value.output
            && more.reasoning == t.report.value.reasoning && more.cached == t.report.value.cached)
      && more.attempted == 1
      && more.succeeded == (if t.ending == Success then 1 else 0)
      && more.errored == (if t.ending != Success then 1 else 0)
      && more.declined == (if t.refused || t.ending == Refusal then 1 else 0)
      && more.cost == (if HasCharge(t) then t.report.value.charge.cost else 0.0)
    ensures forall model :: Billed(t) == model <==> IsBilledTo(t, model)
    ensures Priced(t) <==> HasCharge(t)
  {
  }

  // ----- The exact sums are the fields' sums -----

  lemma {:induction false} ExactIsReported(ts: seq<Terminal>, model: string)
    ensures ExactFor(ts, model, Input) == Reported(ts, (r: Report) => r.input, t => IsBilledTo(t, model))
    ensures ExactFor(ts, model, Output) == Reported(ts, (r: Report) => r.output, t => IsBilledTo(t, model))
    ensures ExactFor(ts, model, Reasoning) == Reported(ts, (r: Report) => r.reasoning, t => IsBilledTo(t, model))
    ensures ExactFor(ts, model, Cached) == Reported(ts, (r: Report) => r.cached, t => IsBilledTo(t, model))
    ensures ExactCostFor(ts, model) == ChargedCost(ts, t => IsBilledTo(t, model))
  {
    hide Contribution, Billed, IsBilledTo, HasCharge;
    if ts != [] {
      ExactIsReported(ts[..|ts| - 1], model);
      OneTerminal(ts[|ts| - 1]);
    }
  }

  lemma {:induction false} ExactIsCounted(ts: seq<Terminal>, model: string)
    ensures var test := (t: Terminal) => IsBilledTo(t, model);
      && ExactFor(ts, model, Attempted) == |Where(ts, test)|
      && ExactFor(ts, model, Succeeded) == |Where(ts, t => test(t) && t.ending == Success)|
      && ExactFor(ts, model, Errored) == |Where(ts, t => test(t) && t.ending != Success)|
      && ExactFor(ts, model, Declined) == |Where(ts, t => test(t) && (t.refused || t.ending == Refusal))|
  {
    hide Contribution, Billed, IsBilledTo, HasCharge, Where;
    var test := (t: Terminal) => IsBilledTo(t, model);
    if ts == [] {
      WhereNothing(test);
      WhereNothing(t => test(t) && t.ending == Success);
      WhereNothing(t => test(t) && t.ending != Success);
      WhereNothing(t => test(t) && (t.refused || t.ending == Refusal));
    } else {
      ExactIsCounted(ts[..|ts| - 1], model);
      OneTerminal(ts[|ts| - 1]);
      WhereOneMore(ts, test);
      WhereOneMore(ts, t => test(t) && t.ending == Success);
      WhereOneMore(ts, t => test(t) && t.ending != Success);
      WhereOneMore(ts, t => test(t) && (t.refused || t.ending == Refusal));
    }
  }

  lemma WhereNothing(test: Terminal -> bool)
    ensures |Where([], test)| == 0
  {
    assert Where([], test) == {};
  }

  lemma {:induction false} TotalIsReported(ts: seq<Terminal>)
    ensures Exact(ts, Input) == Reported(ts, (r: Report) => r.input, _ => true)
    ensures Exact(ts, Output) == Reported(ts, (r: Report) => r.output, _ => true)
    ensures Exact(ts, Reasoning) == Reported(ts, (r: Report) => r.reasoning, _ => true)
    ensures Exact(ts, Cached) == Reported(ts, (r: Report) => r.cached, _ => true)
    ensures ExactCost(ts) == ChargedCost(ts, _ => true)
  {
    hide Contribution, Billed, IsBilledTo, HasCharge;
    if ts != [] {
      TotalIsReported(ts[..|ts| - 1]);
      OneTerminal(ts[|ts| - 1]);
    }
  }

  lemma {:induction false} TotalIsCounted(ts: seq<Terminal>)
    ensures var test := (_: Terminal) => true;
      && Exact(ts, Attempted) == |Where(ts, test)|
      && Exact(ts, Succeeded) == |Where(ts, t => test(t) && t.ending == Success)|
      && Exact(ts, Errored) == |Where(ts, t => test(t) && t.ending != Success)|
      && Exact(ts, Declined) == |Where(ts, t => test(t) && (t.refused || t.ending == Refusal))|
  {
    hide Contribution, Billed, IsBilledTo, HasCharge, Where;
    var test := (_: Terminal) => true;
    if ts == [] {
      WhereNothing(test);
      WhereNothing(t => test(t) && t.ending == Success);
      WhereNothing(t => test(t) && t.ending != Success);
      WhereNothing(t => test(t) && (t.refused || t.ending == Refusal));
    } else {
      TotalIsCounted(ts[..|ts| - 1]);
      OneTerminal(ts[|ts| - 1]);
      WhereOneMore(ts, test);
      WhereOneMore(ts, t => test(t) && t.ending == Success);
      WhereOneMore(ts, t => test(t) && t.ending != Success);
      WhereOneMore(ts, t => test(t) && (t.refused || t.ending == Refusal));
    }
  }

  // ----- What the books hold -----

  /** After any terminals the totals are the capped sums and counts of the terminals' own fields. */
  lemma TotalsAddUp(ts: seq<Terminal>, maxCost: real)
    requires maxCost >= 0.0
    ensures AddsUp(AllEntered(ts, maxCost).usage, ts, _ => true, maxCost)
  {
    hide Contribution, AllEntered, Where, Reported, ChargedCost, Exact, ExactCost;
    TotalIsReported(ts);
    TotalIsCounted(ts);
    TotalsSaturateTheExactSum(ts, maxCost, Input);
    TotalsSaturateTheExactSum(ts, maxCost, Output);
    TotalsSaturateTheExactSum(ts, maxCost, Reasoning);
    TotalsSaturateTheExactSum(ts, maxCost, Cached);
    TotalsSaturateTheExactSum(ts, maxCost, Attempted);
    TotalsSaturateTheExactSum(ts, maxCost, Succeeded);
    TotalsSaturateTheExactSum(ts, maxCost, Declined);
    TotalsSaturateTheExactSum(ts, maxCost, Errored);
  }

  /** And each model's row those of the terminals it answered, or was asked for by name and not answered for. */
  lemma RowsAddUp(ts: seq<Terminal>, maxCost: real, model: string)
    requires maxCost >= 0.0
    ensures AddsUp(ModelUsage(AllEntered(ts, maxCost), model), ts, t => IsBilledTo(t, model), maxCost)
  {
    hide Contribution, AllEntered, ModelUsage, Where, Reported, ChargedCost, Exact, ExactCost, ExactFor, ExactCostFor;
    ExactIsReported(ts, model);
    ExactIsCounted(ts, model);
    ModelTotalsSaturateTheirExactSum(ts, maxCost, model, Input);
    ModelTotalsSaturateTheirExactSum(ts, maxCost, model, Output);
    ModelTotalsSaturateTheirExactSum(ts, maxCost, model, Reasoning);
    ModelTotalsSaturateTheirExactSum(ts, maxCost, model, Cached);
    ModelTotalsSaturateTheirExactSum(ts, maxCost, model, Attempted);
    ModelTotalsSaturateTheirExactSum(ts, maxCost, model, Succeeded);
    ModelTotalsSaturateTheirExactSum(ts, maxCost, model, Declined);
    ModelTotalsSaturateTheirExactSum(ts, maxCost, model, Errored);
  }

  /** A model has a row exactly when some terminal is billed to it. */
  lemma RowsAreForTheBilled(ts: seq<Terminal>, maxCost: real, model: string)
    ensures model in AllEntered(ts, maxCost).byModel <==> exists k :: 0 <= k < |ts| && IsBilledTo(ts[k], model)
  {
    hide AllEntered, Contribution;
    BilledModelsAreListed(ts, maxCost);
    if k :| 0 <= k < |ts| && Billed(ts[k]) == model {
      assert IsBilledTo(ts[k], model);
    }
    if k :| 0 <= k < |ts| && IsBilledTo(ts[k], model) {
      assert Billed(ts[k]) == model;
    }
  }

  /** Nothing reported so far is larger than the field that adds it up. */
  predicate FieldsFit(ts: seq<Terminal>, maxCost: real) {
    && |ts| <= WORD_MAX
    && Reported(ts, (r: Report) => r.input, _ => true) <= WORD_MAX
    && Reported(ts, (r: Report) => r.output, _ => true) <= WORD_MAX
    && Reported(ts, (r: Report) => r.reasoning, _ => true) <= WORD_MAX
    && Reported(ts, (r: Report) => r.cached, _ => true) <= WORD_MAX
    && ChargedCost(ts, _ => true) <= maxCost
  }

  lemma {:induction false} WhereIsBounded(ts: seq<Terminal>, test: Terminal -> bool)
    ensures |Where(ts, test)| <= |ts|
  {
    if ts == [] {
      WhereNothing(test);
    } else {
      WhereIsBounded(ts[..|ts| - 1], test);
      WhereOneMore(ts, test);
    }
  }

  lemma FitsByFields(ts: seq<Terminal>, maxCost: real)
    ensures Fits(ts, maxCost) <==> FieldsFit(ts, maxCost)
  {
    hide Exact, ExactCost, Reported, ChargedCost, Where;
    TotalIsReported(ts);
    TotalIsCounted(ts);
    CallsBalance(ts);
    WhereIsBounded(ts, t => ((_: Terminal) => true)(t) && (t.refused || t.ending == Refusal));
    if FieldsFit(ts, maxCost) {
      forall c: Counter ensures Exact(ts, c) <= WORD_MAX {
        match c
        case Input =>
        case Output =>
        case Reasoning =>
        case Cached =>
        case Attempted =>
        case Succeeded =>
        case Declined =>
        case Errored =>
      }
    }
    if Fits(ts, maxCost) {
      assert Exact(ts, Input) <= WORD_MAX && Exact(ts, Output) <= WORD_MAX;
      assert Exact(ts, Reasoning) <= WORD_MAX && Exact(ts, Cached) <= WORD_MAX && Exact(ts, Attempted) <= WORD_MAX;
    }
  }

  /** The books are believed exactly when every terminal carries a nonnegative charge and all of it fits. */
  lemma CompleteByFields(ts: seq<Terminal>, maxCost: real)
    requires maxCost >= 0.0
    ensures AllEntered(ts, maxCost).complete <==>
      (forall k :: 0 <= k < |ts| ==> HasCharge(ts[k])) && FieldsFit(ts, maxCost)
  {
    hide AllEntered, Fits, FieldsFit;
    CompleteIsExact(ts, maxCost);
    FitsByFields(ts, maxCost);
    forall k | 0 <= k < |ts| ensures Priced(ts[k]) <==> HasCharge(ts[k]) {
      OneTerminal(ts[k]);
    }
  }
}
