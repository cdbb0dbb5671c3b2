/** What the aggregate and the summary of token usage hold, component by component. */
module UsageLaws {
  import opened Wrappers
  import opened Usage

  predicate HasComponents(u: AgentTurnUsage) {
    u.input.Number? || u.output.Number? || u.cachedInput.Number? || u.cacheCreation.Number?
  }

  /** A finite count in whole tokens; a negative one is none. */
  ghost predicate IsWhole(c: Count, n: nat) {
    c.Number? && if c.value <= 0.0 then n == 0 else n as real <= c.value < n as real + 1.0
  }

  lemma FiniteCountIsWhole(c: Count)
    ensures FiniteCount(c).Some? <==> c.Number?
    ensures FiniteCount(c).Some? ==> IsWhole(c, FiniteCount(c).value)
    ensures forall m: nat, n: nat :: IsWhole(c, m) && IsWhole(c, n) ==> m == n
  {}

  ghost function InWhole(c: Count): (n: nat)
    ensures c.Number? ==> IsWhole(c, n)
  {
    FiniteCountIsWhole(c);
    if c.Number? then var n: nat :| IsWhole(c, n); n else 0
  }

  /** The usage counts with the component: it is finite, and the usage has components or has none, as asked. */
  ghost predicate Counts(u: Option<AgentTurnUsage>, components: bool, pick: AgentTurnUsage -> Count) {
    u.Some? && HasComponents(u.value) == components && pick(u.value).Number?
  }

  ghost function SumOver(us: seq<Option<AgentTurnUsage>>, components: bool, pick: AgentTurnUsage -> Count): nat {
    if us == [] then 0
    else
      var last := us[|us| - 1];
      SumOver(us[..|us| - 1], components, pick) + if Counts(last, components, pick) then InWhole(pick(last.value)) else 0
  }

  /** The sum of a component over the usages that count with it; missing if there is none. */
  ghost function Column(us: seq<Option<AgentTurnUsage>>, components: bool, pick: AgentTurnUsage -> Count): Option<nat> {
    if exists u | u in us :: Counts(u, components, pick) then Some(SumOver(us, components, pick)) else None
  }

  ghost function InputColumn(us: seq<Option<AgentTurnUsage>>): Option<nat> { Column(us, true, (u: AgentTurnUsage) => u.input) }
  ghost function OutputColumn(us: seq<Option<AgentTurnUsage>>): Option<nat> { Column(us, true, (u: AgentTurnUsage) => u.output) }
  ghost function CachedColumn(us: seq<Option<AgentTurnUsage>>): Option<nat> { Column(us, true, (u: AgentTurnUsage) => u.cachedInput) }
  ghost function CreationColumn(us: seq<Option<AgentTurnUsage>>): Option<nat> { Column(us, true, (u: AgentTurnUsage) => u.cacheCreation) }

  /** The totals of the usages that come without components. */
  ghost function TotalColumn(us: seq<Option<AgentTurnUsage>>): Option<nat> { Column(us, false, (u: AgentTurnUsage) => u.total) }

  lemma ColumnOfOneMore(us: seq<Option<AgentTurnUsage>>, components: bool, pick: AgentTurnUsage -> Count, sum: Option<nat>, part: Option<nat>)
    requires us != [] && sum == Column(us[..|us| - 1], components, pick)
    requires var last := us[|us| - 1]; part == if Counts(last, components, pick) then FiniteCount(pick(last.value)) else None
    ensures Plus(sum, part) == Column(us, components, pick)
  {
    var n := |us| - 1;
    assert us == us[..n] + [us[n]];
    if Counts(us[n], components, pick) { FiniteCountIsWhole(pick(us[n].value)); }
    if exists u | u in us[..n] :: Counts(u, components, pick) {
    } else {
      NothingCounts(us[..n], components, pick);
    }
  }

  lemma {:induction false} NothingCounts(us: seq<Option<AgentTurnUsage>>, components: bool, pick: AgentTurnUsage -> Count)
    requires forall u | u in us :: !Counts(u, components, pick)
    ensures SumOver(us, components, pick) == 0
  {
    if us != [] { NothingCounts(us[..|us| - 1], components, pick); }
  }

  lemma {:induction false} SumsAreColumns(us: seq<Option<AgentTurnUsage>>)
    ensures SumsOf(us) == Sums(InputColumn(us), OutputColumn(us), CachedColumn(us), CreationColumn(us), TotalColumn(us))
  {
    hide Column, Plus, FiniteCount;
    if us != [] {
      var before, part := us[..|us| - 1], Part(us[|us| - 1]);
      SumsAreColumns(before);
      PartCounts(us[|us| - 1]);
      ColumnOfOneMore(us, true, (u: AgentTurnUsage) => u.input, InputColumn(before), part.input);
      ColumnOfOneMore(us, true, (u: AgentTurnUsage) => u.output, OutputColumn(before), part.output);
      ColumnOfOneMore(us, true, (u: AgentTurnUsage) => u.cachedInput, CachedColumn(before), part.cachedInput);
      ColumnOfOneMore(us, true, (u: AgentTurnUsage) => u.cacheCreation, CreationColumn(before), part.cacheCreation);
      ColumnOfOneMore(us, false, (u: AgentTurnUsage) => u.total, TotalColumn(before), part.totalOnly);
    } else {
      EmptyColumns();
    }
  }

  lemma EmptyColumns()
    ensures forall components, pick :: Column([], components, pick) == None
  {}

  lemma PartCounts(u: Option<AgentTurnUsage>)
    ensures u.Some? ==> (HasComponents(u.value) <==> ComponentTotal(u.value).Some?)
    ensures var components := u.Some? && HasComponents(u.value);
            Part(u) == Sums(
              if components then FiniteCount(u.value.input) else None,
              if components then FiniteCount(u.value.output) else None,
              if components then FiniteCount(u.value.cachedInput) else None,
              if components then FiniteCount(u.value.cacheCreation) else None,
              if u.Some? && !components then FiniteCount(u.value.total) else None)
    ensures u.Some? ==> forall c | c in {u.value.input, u.value.output, u.value.cachedInput, u.value.cacheCreation, u.value.total} ::
              FiniteCount(c).Some? <==> c.Number?
  {}

  ghost function ColumnTotal(us: seq<Option<AgentTurnUsage>>): nat {
    OrZero(InputColumn(us)) + OrZero(OutputColumn(us)) + OrZero(CachedColumn(us)) + OrZero(CreationColumn(us)) + OrZero(TotalColumn(us))
  }

  lemma TotalIsTheColumns(s: Sums)
    ensures s.Total() == OrZero(s.input) + OrZero(s.output) + OrZero(s.cachedInput) + OrZero(s.cacheCreation) + OrZero(s.totalOnly)
    ensures s.Components().Some? <==> s.input.Some? || s.output.Some? || s.cachedInput.Some? || s.cacheCreation.Some?
  {}

  /** A summary holds, for each component, its sum over the usages that have components, and the sum of the plain totals
      of the others; its total is their sum, and there is no summary if that is zero. */
  lemma SummaryIsSummed(us: seq<Option<AgentTurnUsage>>)
    ensures Summarize(us) ==
            if ColumnTotal(us) == 0 then None
            else Some(Summary(InputColumn(us), OutputColumn(us), CachedColumn(us), CreationColumn(us), TotalColumn(us), ColumnTotal(us)))
  {
    hide Column, OrZero, Plus;
    SumsAreColumns(us);
    TotalIsTheColumns(SumsOf(us));
  }

  /** An aggregate holds the sum of each component over the usages that have components, if no usage came with a plain
      total only; otherwise it holds nothing but the sum of everything. */
  lemma AggregateIsSummed(us: seq<Option<AgentTurnUsage>>)
    ensures Aggregate(us) ==
            if TotalColumn(us).Some? then Some(AgentTurnUsage(Absent, Absent, Absent, Absent, Number(ColumnTotal(us) as real)))
            else if exists c | c in [InputColumn(us), OutputColumn(us), CachedColumn(us), CreationColumn(us)] :: c.Some? then
              Some(AgentTurnUsage(
                ColumnCount(InputColumn(us)), ColumnCount(OutputColumn(us)), ColumnCount(CachedColumn(us)), ColumnCount(CreationColumn(us)),
                Absent))
            else None
  {
    hide Column, Plus;
    SumsAreColumns(us);
    TotalIsTheColumns(SumsOf(us));
    var columns := [InputColumn(us), OutputColumn(us), CachedColumn(us), CreationColumn(us)];
    assert columns[0] in columns && columns[1] in columns && columns[2] in columns && columns[3] in columns;
  }

  ghost function ColumnCount(column: Option<nat>): Count {
    match column case None => Absent case Some(n) => Number(n as real)
  }
}
