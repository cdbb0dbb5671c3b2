/** Token usage of agent turns: adding it up, and summarising it for the dashboard. */
module Usage {
  import opened Wrappers

  /** A counter as it may arrive: missing, NaN or infinite, or a number. */
  datatype Count = Absent | NotFinite | Number(value: real)

  datatype Field = InputTokens | OutputTokens | CachedInputTokens | CacheCreationTokens

  const FIELDS := [InputTokens, OutputTokens, CachedInputTokens, CacheCreationTokens]

  datatype AgentTurnUsage = AgentTurnUsage(input: Count, output: Count, cachedInput: Count, cacheCreation: Count, total: Count) {
    function Get(f: Field): Count {
      match f
      case InputTokens => input
      case OutputTokens => output
      case CachedInputTokens => cachedInput
      case CacheCreationTokens => cacheCreation
    }
  }

  function FiniteCount(c: Count): Option<nat> {
    if c.Number? then Some(if c.value.Floor < 0 then 0 else c.value.Floor) else None
  }

  function AsCount(n: Option<nat>): Count {
    if n.None? then Absent else Number(n.value as real)
  }

  /** Addition of counters that may be missing. */
  function Plus(a: Option<nat>, b: Option<nat>): Option<nat> {
    if a.None? then b else if b.None? then a else Some(a.value + b.value)
  }

  function OrZero(n: Option<nat>): nat {
    if n.None? then 0 else n.value
  }

  /** The sum of the components of one usage, if any is a finite number. */
  function ComponentTotal(u: AgentTurnUsage): Option<nat> {
    Plus(Plus(Plus(FiniteCount(u.input), FiniteCount(u.output)), FiniteCount(u.cachedInput)), FiniteCount(u.cacheCreation))
  }

  method GetComponentTotal(u: AgentTurnUsage) returns (total: Option<nat>)
    ensures total == ComponentTotal(u)
  {
    total := None;
    var i := 0;
    while i < |FIELDS|
      invariant 0 <= i <= |FIELDS|
      invariant i == 0 ==> total == None
      invariant i == 1 ==> total == FiniteCount(u.input)
      invariant i == 2 ==> total == Plus(FiniteCount(u.input), FiniteCount(u.output))
      invariant i == 3 ==> total == Plus(Plus(FiniteCount(u.input), FiniteCount(u.output)), FiniteCount(u.cachedInput))
      invariant i == 4 ==> total == ComponentTotal(u)
    {
      total := Plus(total, FiniteCount(u.Get(FIELDS[i])));
      i := i + 1;
    }
  }

  // ---------- what a list of usages adds up to ----------

  /** Sums per component, and the sum of the totals that came without components. */
  datatype Sums = Sums(input: Option<nat>, output: Option<nat>, cachedInput: Option<nat>, cacheCreation: Option<nat>,
                       totalOnly: Option<nat>) {
    function Get(f: Field): Option<nat> {
      match f
      case InputTokens => input
      case OutputTokens => output
      case CachedInputTokens => cachedInput
      case CacheCreationTokens => cacheCreation
    }

    function Components(): Option<nat> {
      Plus(Plus(Plus(input, output), cachedInput), cacheCreation)
    }

    function Total(): nat {
      OrZero(Components()) + OrZero(totalOnly)
    }
  }

  const NOTHING := Sums(None, None, None, None, None)

  function Join(a: Sums, b: Sums): Sums {
    Sums(Plus(a.input, b.input), Plus(a.output, b.output), Plus(a.cachedInput, b.cachedInput),
         Plus(a.cacheCreation, b.cacheCreation), Plus(a.totalOnly, b.totalOnly))
  }

  /** What one usage contributes: its components if it has any, and otherwise its plain total. */
  function Part(u: Option<AgentTurnUsage>): Sums {
    if u.None? then NOTHING
    else if ComponentTotal(u.value).Some? then
      Sums(FiniteCount(u.value.input), FiniteCount(u.value.output), FiniteCount(u.value.cachedInput),
           FiniteCount(u.value.cacheCreation), None)
    else NOTHING.(totalOnly := FiniteCount(u.value.total))
  }

  function SumsOf(us: seq<Option<AgentTurnUsage>>): Sums {
    if us == [] then NOTHING else Join(SumsOf(us[..|us| - 1]), Part(us[|us| - 1]))
  }

  /** The aggregate: a plain total as soon as one usage brought only a total, and components otherwise. */
  function Finish(s: Sums): Option<AgentTurnUsage> {
    if s.totalOnly.Some? then
      Some(AgentTurnUsage(Absent, Absent, Absent, Absent, Number((s.totalOnly.value + OrZero(s.Components())) as real)))
    else if s.Components().Some? then
      Some(AgentTurnUsage(AsCount(s.input), AsCount(s.output), AsCount(s.cachedInput), AsCount(s.cacheCreation), Absent))
    else None
  }

  function Aggregate(us: seq<Option<AgentTurnUsage>>): Option<AgentTurnUsage> {
    Finish(SumsOf(us))
  }

  lemma JoinComponents(a: Sums, b: Sums)
    ensures Join(a, b).Components() == Plus(a.Components(), b.Components())
  {
    hide Plus;
    var two, three := Plus(a.input, a.output), Plus(Plus(a.input, a.output), a.cachedInput);
    PlusInterchanges(a.input, b.input, a.output, b.output);
    PlusInterchanges(two, Plus(b.input, b.output), a.cachedInput, b.cachedInput);
    PlusInterchanges(three, Plus(Plus(b.input, b.output), b.cachedInput), a.cacheCreation, b.cacheCreation);
  }

  lemma PlusInterchanges(a: Option<nat>, b: Option<nat>, c: Option<nat>, d: Option<nat>)
    ensures Plus(Plus(a, b), Plus(c, d)) == Plus(Plus(a, c), Plus(b, d))
  {}

  lemma JoinLaws(a: Sums, b: Sums, c: Sums)
    ensures Join(a, b) == Join(b, a)
    ensures Join(Join(a, b), c) == Join(a, Join(b, c))
    ensures Join(a, NOTHING) == a == Join(NOTHING, a)
  {}

  lemma SumsOfOneMore(us: seq<Option<AgentTurnUsage>>, i: nat)
    requires i < |us|
    ensures SumsOf(us[..i + 1]) == Join(SumsOf(us[..i]), Part(us[i]))
  {
    assert us[..i + 1][..i] == us[..i];
  }

  lemma PartComponents(u: Option<AgentTurnUsage>)
    ensures Part(u).Components() == if u.None? then None else ComponentTotal(u.value)
  {}

  // ---------- the aggregation loop ----------

  function Looked(components: map<Field, nat>, f: Field): Option<nat> {
    if f in components then Some(components[f]) else None
  }

  method AddFields(components: map<Field, nat>, u: AgentTurnUsage) returns (after: map<Field, nat>)
    ensures forall f :: Looked(after, f) == Plus(Looked(components, f), FiniteCount(u.Get(f)))
  {
    after := components;
    var i := 0;
    while i < |FIELDS|
      invariant 0 <= i <= |FIELDS|
      invariant forall j | 0 <= j < i :: Looked(after, FIELDS[j]) == Plus(Looked(components, FIELDS[j]), FiniteCount(u.Get(FIELDS[j])))
      invariant forall j | i <= j < |FIELDS| :: Looked(after, FIELDS[j]) == Looked(components, FIELDS[j])
    {
      var value := FiniteCount(u.Get(FIELDS[i]));
      if value.Some? {
        after := after[FIELDS[i] := OrZero(Looked(after, FIELDS[i])) + value.value];
      }
      i := i + 1;
    }
    forall f ensures Looked(after, f) == Plus(Looked(components, f), FiniteCount(u.Get(f))) {
      assert f == FIELDS[0] || f == FIELDS[1] || f == FIELDS[2] || f == FIELDS[3];
    }
  }

  /** The components collected in a map are those of the sums. */
  ghost predicate Holds(components: map<Field, nat>, s: Sums) {
    forall f :: Looked(components, f) == s.Get(f)
  }

  lemma EmptyMapMeansNoComponents(components: map<Field, nat>, s: Sums)
    requires Holds(components, s)
    ensures components == map[] <==> s.Components().None?
    ensures Looked(components, InputTokens) == s.input && Looked(components, OutputTokens) == s.output
    ensures Looked(components, CachedInputTokens) == s.cachedInput
    ensures Looked(components, CacheCreationTokens) == s.cacheCreation
  {
    assert forall f :: Looked(components, f) == s.Get(f);
    assert Looked(components, InputTokens) == s.input && Looked(components, OutputTokens) == s.output;
    assert Looked(components, CachedInputTokens) == s.cachedInput && Looked(components, CacheCreationTokens) == s.cacheCreation;
    forall f | s.Components().None? ensures f !in components {
      assert Looked(components, f) == s.Get(f);
    }
  }

  lemma AddedFieldsHold(components: map<Field, nat>, s: Sums, after: map<Field, nat>, u: AgentTurnUsage)
    requires Holds(components, s)
    requires forall f :: Looked(after, f) == Plus(Looked(components, f), FiniteCount(u.Get(f)))
    requires ComponentTotal(u).Some?
    ensures Holds(after, Join(s, Part(Some(u))))
  {
    forall f ensures Looked(after, f) == Join(s, Part(Some(u))).Get(f) {
      assert Looked(components, f) == s.Get(f);
      assert Part(Some(u)).Get(f) == FiniteCount(u.Get(f));
    }
  }

  method AddAgentTurnUsage(us: seq<Option<AgentTurnUsage>>) returns (sum: Option<AgentTurnUsage>)
    ensures sum == Aggregate(us)
  {
    var components: map<Field, nat> := map[];
    var componentTotal: Option<nat> := None;
    var totalOnlyTokens: Option<nat> := None;
    var i := 0;
    while i < |us|
      invariant 0 <= i <= |us|
      invariant Holds(components, SumsOf(us[..i]))
      invariant componentTotal == SumsOf(us[..i]).Components()
      invariant totalOnlyTokens == SumsOf(us[..i]).totalOnly
    {
      var u := us[i];
      ghost var before := SumsOf(us[..i]);
      SumsOfOneMore(us, i);
      JoinComponents(before, Part(u));
      PartComponents(u);
      JoinLaws(before, NOTHING, NOTHING);
      i := i + 1;
      if u.None? {
        continue;
      }
      var usageTotal := GetComponentTotal(u.value);
      if usageTotal.Some? {
        componentTotal := Plus(componentTotal, usageTotal);
        var after := AddFields(components, u.value);
        AddedFieldsHold(components, before, after, u.value);
        components := after;
        continue;
      }
      totalOnlyTokens := Plus(totalOnlyTokens, FiniteCount(u.value.total));
    }
    assert us[..i] == us;
    EmptyMapMeansNoComponents(components, SumsOf(us));
    if totalOnlyTokens.Some? {
      return Some(AgentTurnUsage(Absent, Absent, Absent, Absent,
                                 Number((totalOnlyTokens.value + OrZero(componentTotal)) as real)));
    }
    if components == map[] {
      return None;
    }
    sum := Some(AgentTurnUsage(
      AsCount(Looked(components, InputTokens)), AsCount(Looked(components, OutputTokens)),
      AsCount(Looked(components, CachedInputTokens)), AsCount(Looked(components, CacheCreationTokens)), Absent));
  }

  // ---------- grouping and order ----------

  lemma {:induction false} SumsOfConcat(a: seq<Option<AgentTurnUsage>>, b: seq<Option<AgentTurnUsage>>)
    ensures SumsOf(a + b) == Join(SumsOf(a), SumsOf(b))
  {
    if b == [] {
      assert a + b == a;
      JoinLaws(SumsOf(a), NOTHING, NOTHING);
    } else {
      var n := |b| - 1;
      SumsOfConcat(a, b[..n]);
      assert (a + b)[..|a + b| - 1] == a + b[..n];
      JoinLaws(SumsOf(a), SumsOf(b[..n]), Part(b[n]));
    }
  }

  /** Reading an aggregate back gives the sums it was made from, folded into one total if that is what it holds. */
  lemma PartOfFinish(s: Sums)
    ensures Part(Finish(s)) ==
            if s.totalOnly.Some? then NOTHING.(totalOnly := Some(s.Total())) else s
  {
    if s.totalOnly.None? && s.Components().Some? {
      var u := Finish(s).value;
      assert FiniteCount(u.input) == s.input && FiniteCount(u.output) == s.output;
      assert FiniteCount(u.cachedInput) == s.cachedInput && FiniteCount(u.cacheCreation) == s.cacheCreation;
    }
  }

  lemma FinishOfJoin(a: Sums, b: Sums)
    ensures Finish(Join(a, b)) == Finish(Join(Part(Finish(a)), Part(Finish(b))))
  {
    PartOfFinish(a);
    PartOfFinish(b);
    JoinComponents(a, b);
    JoinComponents(Part(Finish(a)), Part(Finish(b)));
  }

  /** Aggregating a concatenation is aggregating the two partial aggregates. */
  lemma AggregateOfParts(a: seq<Option<AgentTurnUsage>>, b: seq<Option<AgentTurnUsage>>)
    ensures Aggregate(a + b) == Aggregate([Aggregate(a), Aggregate(b)])
  {
    SumsOfConcat(a, b);
    FinishOfJoin(SumsOf(a), SumsOf(b));
    var pair := [Aggregate(a), Aggregate(b)];
    assert pair[..1] == [Aggregate(a)] && pair[..0] == [];
    SumsOfOneMore(pair, 1);
    SumsOfOneMore(pair, 0);
    assert pair[..2] == pair;
    JoinLaws(Part(Aggregate(a)), NOTHING, NOTHING);
  }

  lemma MatchLast<T>(a: seq<T>, b: seq<T>) returns (i: nat)
    requires multiset(a) == multiset(b) && a != []
    ensures i < |b| && b[i] == a[|a| - 1]
    ensures multiset(a[..|a| - 1]) == multiset(b[..i] + b[i + 1..])
  {
    var n := |a| - 1;
    assert a[n] in multiset(b);
    i :| 0 <= i < |b| && b[i] == a[n];
    assert a == a[..n] + [a[n]];
    assert b == b[..i] + [b[i]] + b[i + 1..];
    assert multiset(b) == multiset(b[..i] + b[i + 1..]) + multiset{b[i]};
    assert multiset(a[..n]) == multiset(a) - multiset{a[n]};
  }

  lemma TakeOut(b: seq<Option<AgentTurnUsage>>, i: nat)
    requires i < |b|
    ensures SumsOf(b) == Join(SumsOf(b[..i] + b[i + 1..]), Part(b[i]))
  {
    hide Join, Part;
    assert b == b[..i + 1] + b[i + 1..];
    SumsOfConcat(b[..i + 1], b[i + 1..]);
    SumsOfOneMore(b, i);
    SumsOfConcat(b[..i], b[i + 1..]);
    SwapLast(SumsOf(b[..i]), Part(b[i]), SumsOf(b[i + 1..]));
  }

  lemma {:induction false} SumsIgnoreOrder(a: seq<Option<AgentTurnUsage>>, b: seq<Option<AgentTurnUsage>>)
    requires multiset(a) == multiset(b)
    ensures SumsOf(a) == SumsOf(b)
    decreases |a|
  {
    assert |b| == |multiset(b)| == |multiset(a)|;
    if a != [] {
      var i := MatchLast(a, b);
      SumsIgnoreOrder(a[..|a| - 1], b[..i] + b[i + 1..]);
      TakeOut(b, i);
    }
  }

  lemma SwapLast(a: Sums, b: Sums, c: Sums)
    ensures Join(Join(a, b), c) == Join(Join(a, c), b)
  {}

  /** The aggregate does not depend on the order of the usages. */
  lemma AggregateIgnoresOrder(a: seq<Option<AgentTurnUsage>>, b: seq<Option<AgentTurnUsage>>)
    requires multiset(a) == multiset(b)
    ensures Aggregate(a) == Aggregate(b)
  {
    SumsIgnoreOrder(a, b);
  }

  // ---------- the dashboard's summary ----------

  datatype Summary = Summary(
    input: Option<nat>, output: Option<nat>, cachedInput: Option<nat>, cacheCreation: Option<nat>,
    providerTotal: Option<nat>, totalTokens: nat)

  function Summarize(us: seq<Option<AgentTurnUsage>>): Option<Summary> {
    var s := SumsOf(us);
    if s.Total() == 0 then None
    else Some(Summary(s.input, s.output, s.cachedInput, s.cacheCreation, s.totalOnly, s.Total()))
  }

  method SummarizeUsage(us: seq<Option<AgentTurnUsage>>) returns (result: Option<Summary>)
    ensures result == Summarize(us)
  {
    var s := Summary(None, None, None, None, None, 0);
    var i := 0;
    while i < |us|
      invariant 0 <= i <= |us|
      invariant var t := SumsOf(us[..i]);
                s == Summary(t.input, t.output, t.cachedInput, t.cacheCreation, t.totalOnly, t.Total())
    {
      SumsOfOneMore(us, i);
      JoinComponents(SumsOf(us[..i]), Part(us[i]));
      PartComponents(us[i]);
      JoinLaws(SumsOf(us[..i]), NOTHING, NOTHING);
      var u := us[i];
      i := i + 1;
      if u.None? {
        continue;
      }
      var components := ComponentTotal(u.value);
      if components.Some? {
        s := Summary(Plus(s.input, FiniteCount(u.value.input)), Plus(s.output, FiniteCount(u.value.output)),
                     Plus(s.cachedInput, FiniteCount(u.value.cachedInput)),
                     Plus(s.cacheCreation, FiniteCount(u.value.cacheCreation)),
                     s.providerTotal, s.totalTokens + components.value);
        continue;
      }
      var provider := FiniteCount(u.value.total);
      if provider.Some? {
        s := s.(totalTokens := s.totalTokens + provider.value, providerTotal := Plus(s.providerTotal, provider));
      }
    }
    assert us[..i] == us;
    result := if s.totalTokens > 0 then Some(s) else None;
  }

  /** The total that a usage stands for: its components if it has any, and its plain total otherwise. */
  function EffectiveTotal(u: Option<AgentTurnUsage>): nat {
    if u.None? then 0
    else if ComponentTotal(u.value).Some? then ComponentTotal(u.value).value
    else OrZero(FiniteCount(u.value.total))
  }

  function TotalOf(us: seq<Option<AgentTurnUsage>>): nat {
    if us == [] then 0 else TotalOf(us[..|us| - 1]) + EffectiveTotal(us[|us| - 1])
  }

  lemma {:induction false} SumsHoldTheTotal(us: seq<Option<AgentTurnUsage>>)
    ensures SumsOf(us).Total() == TotalOf(us)
  {
    if us != [] {
      var n := |us| - 1;
      SumsHoldTheTotal(us[..n]);
      JoinComponents(SumsOf(us[..n]), Part(us[n]));
      PartComponents(us[n]);
    }
  }

  /** No token is dropped or counted twice: the aggregate, and the summary when there is one, stand for the sum
      of what the usages stand for one by one; the summary is missing exactly when that sum is zero, and
      summarising an aggregate shows the same total. */
  lemma AggregateAndSummaryKeepTheTotal(us: seq<Option<AgentTurnUsage>>)
    ensures EffectiveTotal(Aggregate(us)) == TotalOf(us)
    ensures Summarize(us).None? <==> TotalOf(us) == 0
    ensures Summarize(us).Some? ==> Summarize(us).value.totalTokens == TotalOf(us)
    ensures TotalOf([Aggregate(us)]) == TotalOf(us)
  {
    SumsHoldTheTotal(us);
    PartOfFinish(SumsOf(us));
    PartComponents(Aggregate(us));
    assert [Aggregate(us)][..0] == [];
  }
}
