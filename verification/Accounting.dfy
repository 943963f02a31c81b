/**
 * Physical usage accounting: running totals with saturating counters and one flag that says
 * whether they can be believed. Costs are reals; `maxCost` stands for the largest finite cost.
 */
module Accounting {
  import opened Prelude

  datatype Counter = Input | Output | Reasoning | Cached | Attempted | Succeeded | Declined | Errored

  datatype Usage = Usage(
    input: word, output: word, reasoning: word, cached: word,
    attempted: word, succeeded: word, declined: word, errored: word, cost: real)

  const ZERO := Usage(0, 0, 0, 0, 0, 0, 0, 0, 0.0)

  datatype Ending = Success | Refusal | Failure | Cancellation

  /** A provider's charge as reported: `Unusable` is NaN, infinite or negative. */
  datatype Charge = Unreported | Unusable | Charged(cost: real)

  datatype Report = Report(input: word, output: word, reasoning: word, cached: word, charge: Charge)

  datatype Terminal = Terminal(
    requested: string, answered: Option<string>, ending: Ending, refused: bool, report: Option<Report>)

  function Count(usage: Usage, counter: Counter): word {
    match counter
    case Input => usage.input
    case Output => usage.output
    case Reasoning => usage.reasoning
    case Cached => usage.cached
    case Attempted => usage.attempted
    case Succeeded => usage.succeeded
    case Declined => usage.declined
    case Errored => usage.errored
  }

  /** What one terminal adds to the totals. */
  function Contribution(t: Terminal): Usage {
    var won := if t.ending.Success? then 1 else 0;
    var no := if t.refused || t.ending.Refusal? then 1 else 0;
    match t.report
    case None => Usage(0, 0, 0, 0, 1, won, no, 1 - won, 0.0)
    case Some(r) =>
      Usage(r.input, r.output, r.reasoning, r.cached, 1, won, no, 1 - won, if Priced(t) then r.charge.cost else 0.0)
  }

  predicate Priced(t: Terminal) {
    t.report.Some? && t.report.value.charge.Charged? && t.report.value.charge.cost >= 0.0
  }

  /** The model a terminal is billed to: whoever answered, or else whoever was asked. */
  function Billed(t: Terminal): string {
    if t.answered.Some? && t.answered.value != "" then t.answered.value else t.requested
  }

  function AddUsage(total: Usage, more: Usage, maxCost: real): Usage {
    Usage(SatAdd(total.input, more.input), SatAdd(total.output, more.output),
          SatAdd(total.reasoning, more.reasoning), SatAdd(total.cached, more.cached),
          SatAdd(total.attempted, more.attempted), SatAdd(total.succeeded, more.succeeded),
          SatAdd(total.declined, more.declined), SatAdd(total.errored, more.errored),
          if total.cost + more.cost <= maxCost then total.cost + more.cost else maxCost)
  }

  predicate AddsExactly(total: Usage, more: Usage, maxCost: real) {
    && (forall c: Counter :: Count(total, c) + Count(more, c) <= WORD_MAX)
    && total.cost + more.cost <= maxCost
  }

  datatype Books = Books(terminals: word, usage: Usage, byModel: map<string, Usage>, complete: bool)

  const BLANK := Books(0, ZERO, map[], true)

  function ModelUsage(books: Books, model: string): Usage {
    if model in books.byModel then books.byModel[model] else ZERO
  }

  function Entered(books: Books, t: Terminal, maxCost: real): Books {
    var model, more := Billed(t), Contribution(t);
    Books(
      SatAdd(books.terminals, 1),
      AddUsage(books.usage, more, maxCost),
      books.byModel[model := AddUsage(ModelUsage(books, model), more, maxCost)],
      && books.complete
      && Priced(t)
      && AddsExactly(books.usage, more, maxCost)
      && AddsExactly(ModelUsage(books, model), more, maxCost))
  }

  function AllEntered(ts: seq<Terminal>, maxCost: real): Books {
    if ts == [] then BLANK else Entered(AllEntered(ts[..|ts| - 1], maxCost), ts[|ts| - 1], maxCost)
  }

  /** The accounting object each provider callback updates in place. */
  class PhysicalExecutionAccounting {
    const maxCost: real
    var terminalCount: word
    var usage: Usage
    var usageByModel: map<string, Usage>
    var complete: bool

    constructor (maxCost: real)
      ensures Value() == BLANK && this.maxCost == maxCost
    {
      this.maxCost := maxCost;
      terminalCount, usage, usageByModel, complete := 0, ZERO, map[], true;
    }

    function Value(): Books
      reads this
    {
      Books(terminalCount, usage, usageByModel, complete)
    }

    method Record(t: Terminal)
      modifies this
      ensures Value() == Entered(old(Value()), t, maxCost)
    {
      var more, priced := Itemise(t);
      if !priced {
        complete := false;
      }
      var exact;
      usage, exact := AddUsageSaturating(usage, more, maxCost);
      if !exact {
        complete := false;
      }
      var model := if t.answered.Some? && t.answered.value != "" then t.answered.value else t.requested;
      assert model == Billed(t);
      var entry := if model in usageByModel then usageByModel[model] else ZERO;
      assert entry == ModelUsage(old(Value()), model);
      entry, exact := AddUsageSaturating(entry, more, maxCost);
      usageByModel := usageByModel[model := entry];
      if !exact {
        complete := false;
      }
      terminalCount := SatAdd(terminalCount, 1);
    }
  }

  /** The usage one terminal carries, and whether its provider reported a usable charge. */
  method Itemise(t: Terminal) returns (usage: Usage, priced: bool)
    ensures usage == Contribution(t)
    ensures priced == Priced(t)
  {
    var succeeded := t.ending.Success?;
    var declined := t.refused || t.ending.Refusal?;
    usage := ZERO.(attempted := 1,
                   succeeded := if succeeded then 1 else 0,
                   declined := if declined then 1 else 0,
                   errored := if succeeded then 0 else 1);
    priced := false;
    if t.report.Some? {
      var r := t.report.value;
      usage := usage.(input := r.input, output := r.output, reasoning := r.reasoning, cached := r.cached);
      if r.charge.Charged? && r.charge.cost >= 0.0 {
        usage, priced := usage.(cost := r.charge.cost), true;
      }
    }
  }

  method AddUsageSaturating(total: Usage, more: Usage, maxCost: real) returns (sum: Usage, exact: bool)
    ensures sum == AddUsage(total, more, maxCost)
    ensures exact == AddsExactly(total, more, maxCost)
  {
    exact := true;
    var field, fits;
    sum := total;
    field, fits := SaturatingAddExact(total.input, more.input);
    sum, exact := sum.(input := field), exact && fits;
    assert exact ==> Count(total, Input) + Count(more, Input) <= WORD_MAX;
    field, fits := SaturatingAddExact(total.output, more.output);
    sum, exact := sum.(output := field), exact && fits;
    field, fits := SaturatingAddExact(total.reasoning, more.reasoning);
    sum, exact := sum.(reasoning := field), exact && fits;
    field, fits := SaturatingAddExact(total.cached, more.cached);
    sum, exact := sum.(cached := field), exact && fits;
    field, fits := SaturatingAddExact(total.attempted, more.attempted);
    sum, exact := sum.(attempted := field), exact && fits;
    field, fits := SaturatingAddExact(total.succeeded, more.succeeded);
    sum, exact := sum.(succeeded := field), exact && fits;
    field, fits := SaturatingAddExact(total.declined, more.declined);
    sum, exact := sum.(declined := field), exact && fits;
    field, fits := SaturatingAddExact(total.errored, more.errored);
    sum, exact := sum.(errored := field), exact && fits;
    var cost := total.cost + more.cost;
    if cost <= maxCost {
      sum := sum.(cost := cost);
    } else {
      sum, exact := sum.(cost := maxCost), false;
    }
    assert exact <==> AddsExactly(total, more, maxCost) by {
      if forall c: Counter :: Count(total, c) + Count(more, c) <= WORD_MAX {
        assert Count(total, Input) + Count(more, Input) <= WORD_MAX;
        assert Count(total, Output) + Count(more, Output) <= WORD_MAX;
        assert Count(total, Reasoning) + Count(more, Reasoning) <= WORD_MAX;
        assert Count(total, Cached) + Count(more, Cached) <= WORD_MAX;
        assert Count(total, Attempted) + Count(more, Attempted) <= WORD_MAX;
        assert Count(total, Succeeded) + Count(more, Succeeded) <= WORD_MAX;
        assert Count(total, Declined) + Count(more, Declined) <= WORD_MAX;
        assert Count(total, Errored) + Count(more, Errored) <= WORD_MAX;
      }
    }
  }

  method SaturatingAddExact(total: word, addition: word) returns (sum: word, exact: bool)
    ensures sum == SatAdd(total, addition)
    ensures exact <==> total + addition <= WORD_MAX
  {
    if total + addition <= WORD_MAX {
      return total + addition, true;
    }
    return WORD_MAX, false;
  }

  // ----- What the books say about the terminals they were kept from -----

  /** The unbounded sum of one counter over every terminal. */
  function Exact(ts: seq<Terminal>, counter: Counter): nat {
    if ts == [] then 0
    else Exact(ts[..|ts| - 1], counter) + Count(Contribution(ts[|ts| - 1]), counter)
  }

  /** The same sum over the terminals billed to one model. */
  function ExactFor(ts: seq<Terminal>, model: string, counter: Counter): nat {
    if ts == [] then 0
    else
      ExactFor(ts[..|ts| - 1], model, counter)
      + if Billed(ts[|ts| - 1]) == model then Count(Contribution(ts[|ts| - 1]), counter) else 0
  }

  function ExactCost(ts: seq<Terminal>): real {
    if ts == [] then 0.0 else ExactCost(ts[..|ts| - 1]) + Contribution(ts[|ts| - 1]).cost
  }

  function ExactCostFor(ts: seq<Terminal>, model: string): real {
    if ts == [] then 0.0
    else
      ExactCostFor(ts[..|ts| - 1], model)
      + if Billed(ts[|ts| - 1]) == model then Contribution(ts[|ts| - 1]).cost else 0.0
  }

  lemma CountOfSum(total: Usage, more: Usage, maxCost: real, c: Counter)
    ensures Count(AddUsage(total, more, maxCost), c) == SatAdd(Count(total, c), Count(more, c))
    ensures AddUsage(total, more, maxCost).cost == MinReal(maxCost, total.cost + more.cost)
  {
  }

  /** Saturating one addition at a time is saturating the exact sum once. */
  lemma {:induction false} TotalsSaturateTheExactSum(ts: seq<Terminal>, maxCost: real, c: Counter)
    requires maxCost >= 0.0
    ensures Count(AllEntered(ts, maxCost).usage, c) == Min(WORD_MAX, Exact(ts, c))
    ensures AllEntered(ts, maxCost).terminals == Min(WORD_MAX, |ts|)
    ensures AllEntered(ts, maxCost).usage.cost == MinReal(maxCost, ExactCost(ts))
    ensures ExactCost(ts) >= 0.0
  {
    if ts != [] {
      hide Contribution, AddUsage, Count, Billed;
      ContributionIsNonNegative(ts[|ts| - 1]);
      TotalsSaturateTheExactSum(ts[..|ts| - 1], maxCost, c);
      CountOfSum(AllEntered(ts[..|ts| - 1], maxCost).usage, Contribution(ts[|ts| - 1]), maxCost, c);
    }
  }

  lemma {:induction false} RowsAreWithinTheTotal(ts: seq<Terminal>, model: string, c: Counter)
    ensures ExactFor(ts, model, c) <= Exact(ts, c)
    ensures 0.0 <= ExactCostFor(ts, model) <= ExactCost(ts)
  {
    hide Contribution, Count, Billed;
    if ts != [] {
      RowsAreWithinTheTotal(ts[..|ts| - 1], model, c);
      ContributionIsNonNegative(ts[|ts| - 1]);
    }
  }

  lemma {:induction false} ModelTotalsSaturateTheirExactSum(ts: seq<Terminal>, maxCost: real, model: string, c: Counter)
    requires maxCost >= 0.0
    ensures Count(ModelUsage(AllEntered(ts, maxCost), model), c) == Min(WORD_MAX, ExactFor(ts, model, c))
    ensures ModelUsage(AllEntered(ts, maxCost), model).cost == MinReal(maxCost, ExactCostFor(ts, model))
    ensures 0 <= ExactFor(ts, model, c) <= Exact(ts, c)
    ensures 0.0 <= ExactCostFor(ts, model) <= ExactCost(ts)
  {
    hide Exact, ExactCost, Entered, AddUsage, Contribution, Billed, Count, ModelUsage;
    RowsAreWithinTheTotal(ts, model, c);
    if ts == [] {
      EmptyRow(maxCost, model, c);
    } else {
      var before, t := AllEntered(ts[..|ts| - 1], maxCost), ts[|ts| - 1];
      ModelTotalsSaturateTheirExactSum(ts[..|ts| - 1], maxCost, model, c);
      RowAfter(before, t, maxCost, model);
      CountOfSum(ModelUsage(before, model), Contribution(t), maxCost, c);
      ContributionIsNonNegative(t);
    }
  }

  lemma EmptyRow(maxCost: real, model: string, c: Counter)
    ensures var row := ModelUsage(AllEntered([], maxCost), model); Count(row, c) == 0 && row.cost == 0.0
  {
  }

  lemma ContributionIsNonNegative(t: Terminal)
    ensures Contribution(t).cost >= 0.0
  {
  }

  /** One terminal adds to the row it is billed to and to no other. */
  lemma RowAfter(books: Books, t: Terminal, maxCost: real, model: string)
    ensures var row := ModelUsage(books, model);
      ModelUsage(Entered(books, t, maxCost), model)
        == if Billed(t) == model then AddUsage(row, Contribution(t), maxCost) else row
  {
    hide AddUsage, Contribution, Billed;
  }

  predicate AllPriced(ts: seq<Terminal>) {
    forall k :: 0 <= k < |ts| ==> Priced(ts[k])
  }

  /** Nothing the totals had to hold was larger than the field that holds it. */
  predicate Fits(ts: seq<Terminal>, maxCost: real) {
    (forall c: Counter :: Exact(ts, c) <= WORD_MAX) && ExactCost(ts) <= maxCost
  }

  lemma AddsExactlyIffFits(ts: seq<Terminal>, maxCost: real, c: Counter)
    requires maxCost >= 0.0 && ts != [] && Exact(ts[..|ts| - 1], c) <= WORD_MAX
    ensures var books, t := AllEntered(ts[..|ts| - 1], maxCost), ts[|ts| - 1];
      && (Count(books.usage, c) + Count(Contribution(t), c) <= WORD_MAX <==> Exact(ts, c) <= WORD_MAX)
      && Count(ModelUsage(books, Billed(t)), c) <= Count(books.usage, c)
      && ModelUsage(books, Billed(t)).cost <= books.usage.cost
  {
    TotalsSaturateTheExactSum(ts[..|ts| - 1], maxCost, c);
    ModelTotalsSaturateTheirExactSum(ts[..|ts| - 1], maxCost, Billed(ts[|ts| - 1]), c);
  }

  lemma MoreFitsLess(ts: seq<Terminal>, maxCost: real)
    requires ts != [] && Fits(ts, maxCost)
    ensures Fits(ts[..|ts| - 1], maxCost)
  {
    hide Contribution, Count;
    var before := ts[..|ts| - 1];
    ContributionIsNonNegative(ts[|ts| - 1]);
    forall c: Counter ensures Exact(before, c) <= WORD_MAX {
      assert Exact(ts, c) <= WORD_MAX;
    }
  }

  /** While everything so far fits, the next addition is exact in both books just when it still fits. */
  lemma NextFitsExactly(ts: seq<Terminal>, maxCost: real)
    requires maxCost >= 0.0 && ts != [] && Fits(ts[..|ts| - 1], maxCost)
    ensures var books, t := AllEntered(ts[..|ts| - 1], maxCost), ts[|ts| - 1];
      Fits(ts, maxCost) <==>
      && AddsExactly(books.usage, Contribution(t), maxCost)
      && AddsExactly(ModelUsage(books, Billed(t)), Contribution(t), maxCost)
  {
    hide Contribution, Count, AllEntered, Billed;
    var before, t := ts[..|ts| - 1], ts[|ts| - 1];
    var books := AllEntered(before, maxCost);
    TotalsSaturateTheExactSum(before, maxCost, Input);
    forall c: Counter
      ensures Count(books.usage, c) + Count(Contribution(t), c) <= WORD_MAX <==> Exact(ts, c) <= WORD_MAX
      ensures Count(ModelUsage(books, Billed(t)), c) <= Count(books.usage, c)
      ensures ModelUsage(books, Billed(t)).cost <= books.usage.cost
    {
      assert Exact(before, c) <= WORD_MAX;
      AddsExactlyIffFits(ts, maxCost, c);
    }
    assert Exact(before, Input) <= WORD_MAX;
    AddsExactlyIffFits(ts, maxCost, Input);
  }

  /**
   * The books are marked complete exactly when every terminal was priced and no total overflowed:
   * the flag neither hides a gap nor raises a false alarm.
   */
  lemma {:induction false} CompleteIsExact(ts: seq<Terminal>, maxCost: real)
    requires maxCost >= 0.0
    ensures AllEntered(ts, maxCost).complete <==> AllPriced(ts) && Fits(ts, maxCost)
  {
    hide Contribution, AddsExactly, Fits;
    if ts == [] {
      NothingFits(maxCost);
    } else {
      var before, t := ts[..|ts| - 1], ts[|ts| - 1];
      CompleteIsExact(before, maxCost);
      assert AllPriced(ts) <==> AllPriced(before) && Priced(t);
      if Fits(before, maxCost) {
        NextFitsExactly(ts, maxCost);
      } else if Fits(ts, maxCost) {
        MoreFitsLess(ts, maxCost);
      }
    }
  }

  lemma NothingFits(maxCost: real)
    requires maxCost >= 0.0
    ensures Fits([], maxCost)
  {
  }

  // ----- Complete books balance -----

  function SumModels(models: seq<string>, ts: seq<Terminal>, counter: Counter): nat {
    if models == [] then 0
    else ExactFor(ts, models[0], counter) + SumModels(models[1..], ts, counter)
  }

  predicate Distinct(models: seq<string>) {
    forall i, j :: 0 <= i < j < |models| ==> models[i] != models[j]
  }

  lemma {:induction false} OneTerminalBillsOneModel(models: seq<string>, ts: seq<Terminal>, c: Counter)
    requires Distinct(models) && ts != []
    ensures SumModels(models, ts, c) == SumModels(models, ts[..|ts| - 1], c)
      + if Billed(ts[|ts| - 1]) in models then Count(Contribution(ts[|ts| - 1]), c) else 0
  {
    if models != [] {
      OneTerminalBillsOneModel(models[1..], ts, c);
      assert Billed(ts[|ts| - 1]) in models <==>
        Billed(ts[|ts| - 1]) == models[0] || Billed(ts[|ts| - 1]) in models[1..];
    }
  }

  /** Splitting the exact totals by billed model loses and double-counts nothing. */
  lemma {:induction false} ModelsPartitionTheTotal(models: seq<string>, ts: seq<Terminal>, c: Counter)
    requires Distinct(models) && forall k :: 0 <= k < |ts| ==> Billed(ts[k]) in models
    ensures SumModels(models, ts, c) == Exact(ts, c)
  {
    if ts == [] {
      NothingBilled(models, c);
    } else {
      OneTerminalBillsOneModel(models, ts, c);
      assert Billed(ts[|ts| - 1]) in models;
      ModelsPartitionTheTotal(models, ts[..|ts| - 1], c);
    }
  }

  lemma {:induction false} NothingBilled(models: seq<string>, c: Counter)
    ensures SumModels(models, [], c) == 0
  {
    if models != [] {
      NothingBilled(models[1..], c);
    }
  }

  lemma {:induction false} CallsBalance(ts: seq<Terminal>)
    ensures Exact(ts, Attempted) == |ts|
    ensures Exact(ts, Succeeded) + Exact(ts, Errored) == |ts|
  {
    if ts != [] {
      CallsBalance(ts[..|ts| - 1]);
    }
  }

  lemma {:induction false} BilledModelsAreListed(ts: seq<Terminal>, maxCost: real)
    ensures forall m :: m in AllEntered(ts, maxCost).byModel <==> exists k :: 0 <= k < |ts| && Billed(ts[k]) == m
  {
    if ts != [] {
      var before := ts[..|ts| - 1];
      BilledModelsAreListed(before, maxCost);
      forall m
        ensures m in AllEntered(ts, maxCost).byModel <==> exists k :: 0 <= k < |ts| && Billed(ts[k]) == m
      {
        if k :| 0 <= k < |before| && Billed(before[k]) == m {
          assert Billed(ts[k]) == m;
        }
        if m == Billed(ts[|ts| - 1]) {
        } else if k :| 0 <= k < |ts| && Billed(ts[k]) == m {
          assert Billed(before[k]) == m;
        }
      }
    }
  }

  /** The sum of one counter over the per-model rows. */
  function SumRows(models: seq<string>, books: Books, counter: Counter): nat {
    if models == [] then 0
    else Count(ModelUsage(books, models[0]), counter) + SumRows(models[1..], books, counter)
  }

  lemma {:induction false} RowsAreExact(models: seq<string>, ts: seq<Terminal>, maxCost: real, c: Counter)
    requires maxCost >= 0.0 && Exact(ts, c) <= WORD_MAX
    ensures SumRows(models, AllEntered(ts, maxCost), c) == SumModels(models, ts, c)
  {
    if models != [] {
      ModelTotalsSaturateTheirExactSum(ts, maxCost, models[0], c);
      RowsAreExact(models[1..], ts, maxCost, c);
    }
  }

  // ----- The same for costs -----

  function SumModelCosts(models: seq<string>, ts: seq<Terminal>): real {
    if models == [] then 0.0 else ExactCostFor(ts, models[0]) + SumModelCosts(models[1..], ts)
  }

  /** The sum of the costs in the per-model rows. */
  function SumRowCosts(models: seq<string>, books: Books): real {
    if models == [] then 0.0 else ModelUsage(books, models[0]).cost + SumRowCosts(models[1..], books)
  }

  lemma {:induction false} OneTerminalCostsOneModel(models: seq<string>, ts: seq<Terminal>)
    requires Distinct(models) && ts != []
    ensures SumModelCosts(models, ts) == SumModelCosts(models, ts[..|ts| - 1])
      + if Billed(ts[|ts| - 1]) in models then Contribution(ts[|ts| - 1]).cost else 0.0
  {
    if models != [] {
      OneTerminalCostsOneModel(models[1..], ts);
      assert models == [models[0]] + models[1..];
    }
  }

  lemma {:induction false} NothingCosts(models: seq<string>)
    ensures SumModelCosts(models, []) == 0.0
  {
    if models != [] {
      NothingCosts(models[1..]);
    }
  }

  /** Splitting the exact cost by billed model loses and double-counts nothing. */
  lemma {:induction false} ModelsPartitionTheCost(models: seq<string>, ts: seq<Terminal>)
    requires Distinct(models) && forall k :: 0 <= k < |ts| ==> Billed(ts[k]) in models
    ensures SumModelCosts(models, ts) == ExactCost(ts)
    decreases |ts|
  {
    if ts == [] {
      NothingCosts(models);
    } else {
      ModelsPartitionTheCost(models, ts[..|ts| - 1]);
      OneTerminalCostsOneModel(models, ts);
    }
  }

  lemma {:induction false} RowCostsAreExact(models: seq<string>, ts: seq<Terminal>, maxCost: real)
    requires maxCost >= 0.0 && ExactCost(ts) <= maxCost
    ensures SumRowCosts(models, AllEntered(ts, maxCost)) == SumModelCosts(models, ts)
  {
    if models != [] {
      ModelTotalsSaturateTheirExactSum(ts, maxCost, models[0], Input);
      RowCostsAreExact(models[1..], ts, maxCost);
    }
  }

  lemma CompleteCountsAreExact(ts: seq<Terminal>, maxCost: real, c: Counter)
    requires maxCost >= 0.0 && Fits(ts, maxCost)
    ensures Count(AllEntered(ts, maxCost).usage, c) == Exact(ts, c) <= WORD_MAX
    ensures AllEntered(ts, maxCost).usage.cost == ExactCost(ts)
  {
    TotalsSaturateTheExactSum(ts, maxCost, c);
    assert Exact(ts, c) <= WORD_MAX;
  }

  lemma CompleteCallsBalance(ts: seq<Terminal>, maxCost: real)
    requires maxCost >= 0.0 && Fits(ts, maxCost)
    ensures var books := AllEntered(ts, maxCost);
      books.usage.attempted == books.usage.succeeded + books.usage.errored == books.terminals == |ts|
  {
    CompleteCountsAreExact(ts, maxCost, Attempted);
    CompleteCountsAreExact(ts, maxCost, Succeeded);
    CompleteCountsAreExact(ts, maxCost, Errored);
    TotalsSaturateTheExactSum(ts, maxCost, Attempted);
    CallsBalance(ts);
  }

  /**
   * A snapshot is complete when the books are and as many terminals arrived as calls were
   * committed. Then every total is the exact sum, the per-model rows add up to it, and the calls
   * attempted are the calls committed, each of which either succeeded or errored.
   */
  lemma CompleteSnapshotBalances(ts: seq<Terminal>, maxCost: real, committed: word, models: seq<string>, c: Counter)
    requires maxCost >= 0.0
    requires AllEntered(ts, maxCost).complete && committed == AllEntered(ts, maxCost).terminals
    requires Distinct(models) && forall m :: m in models <==> m in AllEntered(ts, maxCost).byModel
    ensures var books := AllEntered(ts, maxCost);
      && Count(books.usage, c) == Exact(ts, c) == SumRows(models, books, c)
      && books.usage.cost == ExactCost(ts) == SumRowCosts(models, books)
      && books.usage.attempted == books.usage.succeeded + books.usage.errored == committed == |ts|
  {
    CompleteIsExact(ts, maxCost);
    CompleteCountsAreExact(ts, maxCost, c);
    CompleteCallsBalance(ts, maxCost);
    RowsAreExact(models, ts, maxCost, c);
    BilledModelsAreListed(ts, maxCost);
    forall k | 0 <= k < |ts| ensures Billed(ts[k]) in models {
      assert Billed(ts[k]) == Billed(ts[k]);
    }
    ModelsPartitionTheTotal(models, ts, c);
    RowCostsAreExact(models, ts, maxCost);
    ModelsPartitionTheCost(models, ts);
  }
}
