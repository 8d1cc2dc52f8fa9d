/** Flows: the numbered narrative units of a capture. */
module Flows {
  import opened Basics
  import opened Har
  import opened Sorting
  import opened Entries
  import opened Redirects
  import opened Polling

  /** `location` is left out on the last hop. */
  datatype RedirectHop = RedirectHop(index: nat, url: string, status: int, location: Option<string>)

  datatype PollingGroupInfo = PollingGroupInfo(occurrenceCount: nat, intervalSeconds: real, collapsedIndices: seq<nat>)

  /** The summary text is not modelled. */
  datatype Flow = Flow(
    flowId: nat, startedAt: int, category: Category, harEntryIndices: seq<nat>, redirectChain: bool,
    redirectHops: Option<seq<RedirectHop>>, pollingGroup: Option<PollingGroupInfo>, collapsedInto: Option<nat>)

  function HopsOf(hops: seq<ClassifiedEntry>): seq<RedirectHop> {
    seq(|hops|, i requires 0 <= i < |hops| =>
      RedirectHop(hops[i].index, hops[i].entry.request.url, hops[i].entry.response.status,
                  if i < |hops| - 1 then Location(hops[i]) else None))
  }

  function ChainFlow(id: nat, chain: RedirectChain): Flow
    requires chain.hops != []
  {
    var first := chain.hops[0];
    Flow(id, At(first), first.category, IndicesOf(chain.hops), true, Some(HopsOf(chain.hops)), None, None)
  }

  function PollingFirstFlow(id: nat, c: ClassifiedEntry, g: PollingGroup): Flow
    requires g.occurrenceIndices != []
  {
    Flow(id, At(c), c.category, [c.index], false, None,
         Some(PollingGroupInfo(|g.occurrenceIndices|, g.intervalSeconds, g.occurrenceIndices[1..])), None)
  }

  function SimpleFlow(id: nat, c: ClassifiedEntry, collapsedInto: Option<nat>): Flow {
    Flow(id, At(c), c.category, [c.index], false, None, None, collapsedInto)
  }

  // ---------------------------------------------------------------- what the detectors provide

  ghost predicate GoodChain(entries: seq<ClassifiedEntry>, x: nat, chain: RedirectChain) {
    && |chain.hops| >= 2 && chain.hops[0].index == x && DistinctIndices(chain.hops)
    && forall h | h in chain.hops :: h in entries && IsNavigation(h)
  }

  ghost predicate GoodChains(entries: seq<ClassifiedEntry>, chains: map<nat, RedirectChain>) {
    && (forall x | x in chains :: GoodChain(entries, x, chains[x]))
    && (forall x, y, a, b | x in chains && y in chains && 0 <= a < |chains[x].hops| && 0 <= b < |chains[y].hops| &&
          chains[x].hops[a].index == chains[y].hops[b].index :: x == y && a == b)
  }

  ghost predicate RunFor(entries: seq<ClassifiedEntry>, g: PollingGroup, run: seq<ClassifiedEntry>) {
    && |run| >= MIN_OCCURRENCES && g.firstIndex == run[0].index && g.occurrenceIndices == IndicesOf(run)
    && StrictBy(StartKey, run)
    && forall c | c in run :: c in entries && IsXhr(c)
  }

  ghost predicate GoodGroups(entries: seq<ClassifiedEntry>, groups: seq<PollingGroup>) {
    && (forall g | g in groups :: exists run :: RunFor(entries, g, run))
    && (forall p, q | 0 <= p < q < |groups| :: ShareNothing(groups[p], groups[q]))
  }

  lemma ChainsAreGood(web: Web, entries: seq<ClassifiedEntry>, chains: map<nat, RedirectChain>)
    requires DistinctIndices(entries) && AreChains(web, Navs(entries), chains)
    ensures GoodChains(entries, chains)
  {
    var nav := Navs(entries);
    NavsDistinct(entries);
    hide AreChains, Navs, Link, DistinctIndices;
    forall x | x in chains ensures GoodChain(entries, x, chains[x]) {
      ChainIsGood(web, entries, chains, x);
    }
    forall x, y, a, b | x in chains && y in chains && 0 <= a < |chains[x].hops| && 0 <= b < |chains[y].hops| &&
        chains[x].hops[a].index == chains[y].hops[b].index
      ensures x == y && a == b
    {
      ChainsAreDisjoint(web, nav, chains, x, y, a, b);
    }
  }

  lemma ChainIsGood(web: Web, entries: seq<ClassifiedEntry>, chains: map<nat, RedirectChain>, x: nat)
    requires DistinctIndices(entries) && AreChains(web, Navs(entries), chains) && x in chains
    ensures GoodChain(entries, x, chains[x])
  {
    hide AreChains, Navs, Link, DistinctIndices, IsRun;
    var nav := Navs(entries);
    NavsDistinct(entries);
    NavElements(entries);
    var i, e := ChainIsMaximalRun(web, nav, chains, x);
    RunBounds(web, nav, i, e);
    SliceDistinct(nav, i, e + 1);
    forall h | h in chains[x].hops ensures h in entries && h.category == Navigation {
      assert h in nav;
    }
  }

  lemma SliceDistinct(s: seq<ClassifiedEntry>, i: nat, j: nat)
    requires DistinctIndices(s) && i <= j <= |s|
    ensures DistinctIndices(s[i..j])
  {
  }

  lemma GroupsAreGood(web: Web, entries: seq<ClassifiedEntry>)
    requires DistinctIndices(entries)
    ensures GoodGroups(entries, PollingGroups(web, entries))
  {
    hide PollingGroups, DistinctIndices;
    var groups := PollingGroups(web, entries);
    forall g | g in groups ensures exists run :: RunFor(entries, g, run) {
      GroupHasRun(web, entries, g);
    }
    forall p, q | 0 <= p < q < |groups| ensures ShareNothing(groups[p], groups[q]) {
      GroupsAreDisjoint(web, entries, p, q);
    }
  }

  lemma GroupHasRun(web: Web, entries: seq<ClassifiedEntry>, g: PollingGroup)
    requires DistinctIndices(entries) && g in PollingGroups(web, entries)
    ensures exists run :: RunFor(entries, g, run)
  {
    GroupIffReportableRun(web, entries, g);
    hide PollingGroups;
    var sig, run :| RunIn(web, Xhrs(entries), sig, run) && Reportable(run) && g == GroupOf(run);
    GroupSpan(run);
    RunElements(web, Xhrs(entries), sig, run);
    XhrsDistinct(entries);
    hide Reportable, RunIn, Xhrs, DistinctIndices, StrictBy, Stats.Median;
    assert RunFor(entries, g, run);
  }

  lemma RunElements(web: Web, xs: seq<ClassifiedEntry>, sig: Signature, run: seq<ClassifiedEntry>)
    requires RunIn(web, xs, sig, run)
    ensures forall c | c in run :: c in xs
  {
    var bucket := Bucket(web, xs, sig);
    BucketElements(web, xs, sig);
    FlattenRuns(web, bucket);
    hide Bucket, RunsOf;
    PieceElements(RunsOf(web, bucket), run);
  }

  lemma {:induction false} PieceElements<T>(pieces: seq<seq<T>>, piece: seq<T>)
    requires piece in pieces
    ensures forall c | c in piece :: c in Flatten(pieces)
  {
    if piece != pieces[0] {
      PieceElements(pieces[1..], piece);
    }
  }

  // ---------------------------------------------------------------- the plan and the flows

  /** The lookups `build_flows` prepares. */
  datatype Plan = Plan(
    chains: map<nat, RedirectChain>, consumed: set<nat>,
    firsts: map<nat, PollingGroup>, collapsed: map<nat, PollingGroup>)

  function FirstsOf(groups: seq<PollingGroup>): map<nat, PollingGroup> {
    if groups == [] then map[]
    else FirstsOf(groups[..|groups| - 1])[groups[|groups| - 1].firstIndex := groups[|groups| - 1]]
  }

  function CollapsedOf(groups: seq<PollingGroup>): map<nat, PollingGroup>
    requires forall g | g in groups :: g.occurrenceIndices != []
  {
    if groups == [] then map[]
    else
      var last := groups[|groups| - 1];
      CollapsedOf(groups[..|groups| - 1]) + map x | x in last.occurrenceIndices[1..] :: last
  }

  function PlanOf(chains: map<nat, RedirectChain>, groups: seq<PollingGroup>): Plan
    requires forall g | g in groups :: g.occurrenceIndices != []
  {
    Plan(chains, set x, h | x in chains && 0 < h < |chains[x].hops| :: chains[x].hops[h].index,
         FirstsOf(groups), CollapsedOf(groups))
  }

  predicate Emits(plan: Plan, c: ClassifiedEntry) { c.category != StaticAsset && c.index !in plan.consumed }

  /** The entries that get a flow, in order. */
  function Emitted(plan: Plan, s: seq<ClassifiedEntry>): seq<ClassifiedEntry> {
    if s == [] then []
    else Emitted(plan, s[..|s| - 1]) + if Emits(plan, s[|s| - 1]) then [s[|s| - 1]] else []
  }

  /** The flow id of the emitted entry with an index: its position, counted from one. */
  function IdOf(es: seq<ClassifiedEntry>, index: nat): Option<nat> {
    if es == [] then None
    else if es[|es| - 1].index == index then Some(|es|)
    else IdOf(es[..|es| - 1], index)
  }

  ghost predicate PlanFits(plan: Plan) {
    && (forall x | x in plan.chains :: plan.chains[x].hops != [])
    && (forall x | x in plan.firsts :: plan.firsts[x].occurrenceIndices != [])
  }

  /** The flow of emitted entry `k`; a collapsed occurrence refers to the flow of its group's first. */
  function FlowOf(plan: Plan, es: seq<ClassifiedEntry>, k: nat): Flow
    requires k < |es| && PlanFits(plan)
  {
    var c := es[k];
    if c.index in plan.chains then ChainFlow(k + 1, plan.chains[c.index])
    else if c.index in plan.firsts then PollingFirstFlow(k + 1, c, plan.firsts[c.index])
    else if c.index in plan.collapsed then SimpleFlow(k + 1, c, IdOf(es[..k], plan.collapsed[c.index].firstIndex))
    else SimpleFlow(k + 1, c, None)
  }

  ghost predicate AreFlows(plan: Plan, es: seq<ClassifiedEntry>, flows: seq<Flow>) {
    PlanFits(plan) && |flows| == |es| && forall k | 0 <= k < |es| :: flows[k] == FlowOf(plan, es, k)
  }

  lemma {:induction false} FirstsFacts(groups: seq<PollingGroup>, x: nat)
    ensures x in FirstsOf(groups) <==> exists g :: g in groups && g.firstIndex == x
    ensures x in FirstsOf(groups) ==> FirstsOf(groups)[x] in groups && FirstsOf(groups)[x].firstIndex == x
  {
    if groups != [] {
      FirstsFacts(groups[..|groups| - 1], x);
      assert groups == groups[..|groups| - 1] + [groups[|groups| - 1]];
    }
  }

  lemma {:induction false} CollapsedFacts(groups: seq<PollingGroup>, x: nat)
    requires forall g | g in groups :: g.occurrenceIndices != []
    ensures x in CollapsedOf(groups) <==> exists g :: g in groups && x in g.occurrenceIndices[1..]
    ensures x in CollapsedOf(groups) ==>
      CollapsedOf(groups)[x] in groups && x in CollapsedOf(groups)[x].occurrenceIndices[1..]
  {
    if groups != [] {
      CollapsedFacts(groups[..|groups| - 1], x);
      assert groups == groups[..|groups| - 1] + [groups[|groups| - 1]];
    }
  }

  lemma {:induction false} EmittedElements(plan: Plan, s: seq<ClassifiedEntry>)
    ensures forall c :: c in Emitted(plan, s) <==> c in s && Emits(plan, c)
  {
    hide Emits;
    if s != [] {
      EmittedElements(plan, s[..|s| - 1]);
      assert s == s[..|s| - 1] + [s[|s| - 1]];
    }
  }

  lemma EmittedStep(plan: Plan, s: seq<ClassifiedEntry>, i: nat)
    requires i < |s|
    ensures Emitted(plan, s[..i + 1]) == Emitted(plan, s[..i]) + if Emits(plan, s[i]) then [s[i]] else []
  {
    assert s[..i + 1][..i] == s[..i];
    hide Emits;
  }

  lemma {:induction false} EmittedKeeps(plan: Plan, s: seq<ClassifiedEntry>)
    requires DistinctIndices(s) && SortedBy(StartKey, s)
    ensures DistinctIndices(Emitted(plan, s)) && SortedBy(StartKey, Emitted(plan, s))
  {
    hide Emits, StartKey;
    if s != [] {
      var front, last := s[..|s| - 1], s[|s| - 1];
      EmittedKeeps(plan, front);
      EmittedElements(plan, front);
      var es := Emitted(plan, front);
      forall i | 0 <= i < |es| ensures es[i].index != last.index && StartKey(es[i]) <= StartKey(last) {
        assert es[i] in es;
        var j :| 0 <= j < |front| && front[j] == es[i];
        assert s[j] == es[i] && s[|s| - 1] == last;
      }
    }
  }

  lemma IdOfSnoc(es: seq<ClassifiedEntry>, c: ClassifiedEntry, x: nat)
    ensures IdOf(es + [c], x) == if c.index == x then Some(|es| + 1) else IdOf(es, x)
  {
    assert (es + [c])[..|es|] == es;
  }

  lemma {:induction false} IdOfAt(es: seq<ClassifiedEntry>, k: nat)
    requires DistinctIndices(es) && k < |es|
    ensures IdOf(es, es[k].index) == Some(k + 1)
  {
    if k < |es| - 1 {
      IdOfAt(es[..|es| - 1], k);
    }
  }

  lemma FlowOfPrefix(plan: Plan, es: seq<ClassifiedEntry>, more: seq<ClassifiedEntry>, k: nat)
    requires PlanFits(plan) && k < |es|
    ensures FlowOf(plan, es + more, k) == FlowOf(plan, es, k)
  {
    assert (es + more)[..k] == es[..k];
    hide IdOf, ChainFlow, PollingFirstFlow, SimpleFlow;
  }

  // ---------------------------------------------------------------- how chains and groups lie in the trace

  /** The trace, the detectors' results for it, and the plan made of them. */
  ghost predicate Planned(
      entries: seq<ClassifiedEntry>, chains: map<nat, RedirectChain>, groups: seq<PollingGroup>, plan: Plan) {
    && DistinctIndices(entries) && GoodChains(entries, chains) && GoodGroups(entries, groups)
    && (forall g | g in groups :: g.occurrenceIndices != []) && plan == PlanOf(chains, groups)
  }

  lemma GroupsNonEmpty(entries: seq<ClassifiedEntry>, groups: seq<PollingGroup>)
    requires GoodGroups(entries, groups)
    ensures forall g | g in groups :: g.occurrenceIndices != []
  {
    hide StrictBy;
    forall g | g in groups ensures g.occurrenceIndices != [] {
      var run :| RunFor(entries, g, run);
    }
  }

  lemma LookupsArePlanned(
      entries: seq<ClassifiedEntry>, chains: map<nat, RedirectChain>, groups: seq<PollingGroup>)
    requires DistinctIndices(entries) && GoodChains(entries, chains) && GoodGroups(entries, groups)
    requires forall g | g in groups :: g.occurrenceIndices != []
    ensures Planned(entries, chains, groups, PlanOf(chains, groups))
    ensures PlanOf(chains, groups).chains == chains
  {
    hide DistinctIndices, GoodChains, GoodGroups;
  }

  lemma PlanFitsPlanned(
      entries: seq<ClassifiedEntry>, chains: map<nat, RedirectChain>, groups: seq<PollingGroup>, plan: Plan)
    requires Planned(entries, chains, groups, plan)
    ensures PlanFits(plan)
  {
    hide GoodGroups, DistinctIndices, CollapsedOf;
    forall x | x in plan.firsts ensures plan.firsts[x].occurrenceIndices != [] {
      FirstsFacts(groups, x);
    }
    forall x | x in plan.chains ensures plan.chains[x].hops != [] {
      assert GoodChain(entries, x, chains[x]);
    }
  }

  lemma SameEntry(entries: seq<ClassifiedEntry>, c: ClassifiedEntry, d: ClassifiedEntry)
    requires DistinctIndices(entries) && c in entries && d in entries && c.index == d.index
    ensures c == d
  {
  }

  lemma HopIsNavigation(
      entries: seq<ClassifiedEntry>, chains: map<nat, RedirectChain>, x: nat, h: nat, c: ClassifiedEntry)
    requires GoodChains(entries, chains) && DistinctIndices(entries) && c in entries
    requires x in chains && h < |chains[x].hops|
    ensures chains[x].hops[h].index == c.index ==> chains[x].hops[h] == c && IsNavigation(c)
  {
    assert GoodChain(entries, x, chains[x]);
    var hop := chains[x].hops[h];
    assert hop in chains[x].hops;
    SameIndexSameEntry(entries, c, hop);
  }

  /** XHR entries are never skipped and never head a chain. */
  lemma XhrIsEmitted(
      entries: seq<ClassifiedEntry>, chains: map<nat, RedirectChain>, groups: seq<PollingGroup>, plan: Plan,
      c: ClassifiedEntry)
    requires Planned(entries, chains, groups, plan) && c in entries && IsXhr(c)
    ensures Emits(plan, c) && c.index !in plan.chains
  {
    hide GoodGroups, FirstsOf, CollapsedOf, DistinctIndices;
    if c.index in plan.consumed {
      var x, h :| x in chains && 0 < h < |chains[x].hops| && chains[x].hops[h].index == c.index;
      HopIsNavigation(entries, chains, x, h, c);
    }
    if c.index in plan.chains {
      assert GoodChain(entries, c.index, chains[c.index]);
      HopIsNavigation(entries, chains, c.index, 0, c);
    }
  }

  /** Where a collapsed occurrence stands: a later member of its group's run, after the first in time. */
  lemma CollapsedInRun(
      entries: seq<ClassifiedEntry>, chains: map<nat, RedirectChain>, groups: seq<PollingGroup>, plan: Plan,
      c: ClassifiedEntry)
    returns (run: seq<ClassifiedEntry>, j: nat)
    requires Planned(entries, chains, groups, plan) && c in entries && c.index in plan.collapsed
    ensures var g := plan.collapsed[c.index];
            && g in groups && RunFor(entries, g, run) && 0 < j < |run| && run[j] == c
            && StartKey(run[0]) < StartKey(c) && run[0] in entries && IsXhr(run[0]) && run[0].index == g.firstIndex
  {
    hide GoodChains, FirstsOf, DistinctIndices, CollapsedOf;
    var x := c.index;
    CollapsedFacts(groups, x);
    var g := plan.collapsed[x];
    run :| RunFor(entries, g, run);
    var i :| 0 <= i < |g.occurrenceIndices[1..]| && g.occurrenceIndices[1..][i] == x;
    j := i + 1;
    assert g.occurrenceIndices[j] == run[j].index == x;
    assert run[j] in run && run[0] in run;
    SameEntry(entries, c, run[j]);
  }

  lemma EarlierInTime(s: seq<ClassifiedEntry>, p: nat, i: nat)
    requires SortedBy(StartKey, s) && p < |s| && i < |s| && StartKey(s[p]) < StartKey(s[i])
    ensures p < i
  {
  }

  /** When a collapsed occurrence is reached, the first of its group has its flow already. */
  lemma FirstHasFlow(
      entries: seq<ClassifiedEntry>, chains: map<nat, RedirectChain>, groups: seq<PollingGroup>, plan: Plan, i: nat)
    requires Planned(entries, chains, groups, plan) && |ByTime(entries)| == |entries| && i < |entries|
    requires ByTime(entries)[i].index in plan.collapsed
    ensures IdOf(Emitted(plan, ByTime(entries)[..i]), plan.collapsed[ByTime(entries)[i].index].firstIndex).Some?
  {
    var s := ByTime(entries);
    ByTimeFacts(entries);
    hide ByTime, PlanOf;
    var c := s[i];
    assert c in entries;
    var run, j := CollapsedInRun(entries, chains, groups, plan, c);
    XhrIsEmitted(entries, chains, groups, plan, run[0]);
    assert run[0] in s;
    var p :| 0 <= p < |s| && s[p] == run[0];
    EarlierInTime(s, p, i);
    hide Emits, Planned, RunFor;
    EmittedElements(plan, s[..i]);
    assert s[..i][p] == run[0];
    IdOfMember(Emitted(plan, s[..i]), run[0]);
  }

  lemma {:induction false} IdOfMember(es: seq<ClassifiedEntry>, c: ClassifiedEntry)
    requires c in es
    ensures IdOf(es, c.index).Some?
  {
    if es[|es| - 1].index != c.index {
      assert es == es[..|es| - 1] + [es[|es| - 1]];
      IdOfMember(es[..|es| - 1], c);
    }
  }

  // ---------------------------------------------------------------- the builder

  /** `build_flows`. */
  method BuildFlows(web: Web, classified: seq<ClassifiedEntry>) returns (flows: seq<Flow>)
    requires DistinctIndices(classified)
    ensures AreFlowsOf(web, classified, flows)
    ensures Sound(classified, flows)
  {
    hide *;
    var redirectChains := DetectRedirectChains(web, classified);
    var pollingGroups := DetectPollingGroups(web, classified);
    ChainsAreGood(web, classified, redirectChains);
    GroupsAreGood(web, classified);
    GroupsNonEmpty(classified, pollingGroups);
    ghost var groups := pollingGroups;
    var lookups := PlanOf(redirectChains, pollingGroups);
    ghost var plan := lookups;
    LookupsArePlanned(classified, redirectChains, groups);
    PlanFitsPlanned(classified, redirectChains, groups, plan);
    var sorted := ByTime(classified);
    ByTimeFacts(classified);
    flows := [];
    var flowIdByIndex: map<nat, nat> := map[];
    var nextFlowId := 1;
    ghost var es: seq<ClassifiedEntry> := [];
    NoFlows(plan, sorted);
    for i := 0 to |sorted|
      invariant es == Emitted(plan, sorted[..i])
      invariant AreFlows(plan, es, flows) && nextFlowId == |es| + 1
      invariant forall x :: IdOf(es, x) == if x in flowIdByIndex then Some(flowIdByIndex[x]) else None
    {
      var c := sorted[i];
      EmittedStep(plan, sorted, i);
      if c.category == StaticAsset || c.index in lookups.consumed {
        SkippedIsNotEmitted(plan, c);
        continue;
      }
      EmittedUnlessSkipped(plan, c);
      var id := nextFlowId;
      nextFlowId := nextFlowId + 1;
      ghost var before := flowIdByIndex;
      flowIdByIndex := flowIdByIndex[c.index := id];
      var flow;
      FlowOfNew(plan, es, c);
      if c.index in lookups.chains {
        flow := ChainFlow(id, lookups.chains[c.index]);
      } else if c.index in lookups.firsts {
        flow := PollingFirstFlow(id, c, lookups.firsts[c.index]);
      } else if c.index in lookups.collapsed {
        var g := lookups.collapsed[c.index];
        FirstHasFlow(classified, redirectChains, groups, plan, i);
        FirstIsOther(classified, redirectChains, groups, plan, c);
        flow := SimpleFlow(id, c, Some(flowIdByIndex[g.firstIndex]));
      } else {
        flow := SimpleFlow(id, c, None);
      }
      AreFlowsSnoc(plan, es, flows, c);
      forall x ensures IdOf(es + [c], x) == if x in flowIdByIndex then Some(flowIdByIndex[x]) else None {
        IdOfSnoc(es, c, x);
      }
      flows := flows + [flow];
      es := es + [c];
    }
    assert sorted[..|sorted|] == sorted;
    PlannedIsBuilt(web, classified, redirectChains, plan, flows);
    BuiltIsSound(classified, redirectChains, groups, plan, es, flows);
  }

  /** The flows of a trace: those planned from its chains and its polling groups. */
  ghost predicate AreFlowsOf(web: Web, classified: seq<ClassifiedEntry>, flows: seq<Flow>) {
    exists chains, plan ::
      && AreChains(web, Navs(classified), chains)
      && Built(classified, chains, PollingGroups(web, classified), plan, Emitted(plan, ByTime(classified)), flows)
  }

  /** What a list of flows promises about the entries it was built from. */
  ghost predicate Sound(classified: seq<ClassifiedEntry>, flows: seq<Flow>) {
    && (forall k | 0 <= k < |flows| :: flows[k].flowId == k + 1)
    && (forall k, l | 0 <= k <= l < |flows| :: flows[k].startedAt <= flows[l].startedAt)
    && (forall k | 0 <= k < |flows| :: flows[k].harEntryIndices != [] && ShowsFirst(classified, flows[k]))
    && NoDup(AllIndices(flows))
    && (forall x :: x in AllIndices(flows) <==>
          exists c :: c in classified && c.index == x && c.category != StaticAsset)
    && (forall k | 0 <= k < |flows| :: flows[k].collapsedInto.Some? ==> Resolves(flows, k))
    && (forall p | 0 <= p < |flows| :: flows[p].pollingGroup.Some? ==> ListsItsFlows(flows, p))
  }

  /** A flow starts when its first entry does, and has its category. */
  ghost predicate ShowsFirst(classified: seq<ClassifiedEntry>, flow: Flow)
    requires flow.harEntryIndices != []
  {
    exists c :: c in classified && c.index == flow.harEntryIndices[0]
                && flow.startedAt == c.entry.startedAt && flow.category == c.category
  }

  /** The reference of flow `k` is to an earlier flow, which carries a polling group. */
  predicate Resolves(flows: seq<Flow>, k: nat)
    requires k < |flows| && flows[k].collapsedInto.Some?
  {
    var id := flows[k].collapsedInto.value;
    1 <= id <= |flows| && id < flows[k].flowId && flows[id - 1].flowId == id && flows[id - 1].pollingGroup.Some?
  }

  /** The polling group of flow `p` lists the flows collapsed into it, in flow order, and counts one occurrence more. */
  predicate ListsItsFlows(flows: seq<Flow>, p: nat)
    requires p < |flows| && flows[p].pollingGroup.Some?
  {
    var info := flows[p].pollingGroup.value;
    && info.collapsedIndices == CollapsedInto(flows, flows[p].flowId)
    && info.occurrenceCount == |info.collapsedIndices| + 1
  }

  lemma PlannedIsBuilt(
      web: Web, classified: seq<ClassifiedEntry>, chains: map<nat, RedirectChain>, plan: Plan, flows: seq<Flow>)
    requires AreChains(web, Navs(classified), chains)
    requires Planned(classified, chains, PollingGroups(web, classified), plan)
    requires AreFlows(plan, Emitted(plan, ByTime(classified)), flows)
    ensures AreFlowsOf(web, classified, flows)
    ensures Built(classified, chains, PollingGroups(web, classified), plan, Emitted(plan, ByTime(classified)), flows)
  {
    hide AreChains, Navs, Planned, PollingGroups, AreFlows, Emitted, ByTime;
  }

  lemma BuiltIsSound(
      entries: seq<ClassifiedEntry>, chains: map<nat, RedirectChain>, groups: seq<PollingGroup>, plan: Plan,
      es: seq<ClassifiedEntry>, flows: seq<Flow>)
    requires Built(entries, chains, groups, plan, es, flows)
    ensures Sound(entries, flows)
  {
    EmittedIn(entries, chains, groups, plan, es, flows);
    hide Built, AllIndices, NoDup, Resolves, ListsItsFlows;
    FlowsAreNumbered(entries, chains, groups, plan, es, flows);
    forall k | 0 <= k < |flows| ensures ShowsFirst(entries, flows[k]) {
      assert es[k] in es;
    }
    hide ShowsFirst;
    FlowsConserveEntries(entries, chains, groups, plan, es, flows);
    forall k | 0 <= k < |flows| ensures flows[k].collapsedInto.Some? ==> Resolves(flows, k) {
      if flows[k].collapsedInto.Some? {
        CollapseResolves(entries, chains, groups, plan, es, flows, k);
      }
    }
    forall p | 0 <= p < |flows| ensures flows[p].pollingGroup.Some? ==> ListsItsFlows(flows, p) {
      if flows[p].pollingGroup.Some? {
        GroupListsItsFlows(entries, chains, groups, plan, es, flows, p);
      }
    }
  }

  lemma EmittedIn(
      entries: seq<ClassifiedEntry>, chains: map<nat, RedirectChain>, groups: seq<PollingGroup>, plan: Plan,
      es: seq<ClassifiedEntry>, flows: seq<Flow>)
    requires Built(entries, chains, groups, plan, es, flows)
    ensures forall c | c in es :: c in entries
  {
    EmittedFacts(entries, chains, groups, plan, es, flows);
    hide Built, Emits;
  }

  lemma NoFlows(plan: Plan, s: seq<ClassifiedEntry>)
    requires PlanFits(plan)
    ensures Emitted(plan, s[..0]) == [] && AreFlows(plan, [], []) && forall x :: IdOf([], x) == None
  {
    hide PlanFits;
  }

  lemma SkippedIsNotEmitted(plan: Plan, c: ClassifiedEntry)
    requires c.category == StaticAsset || c.index in plan.consumed
    ensures !Emits(plan, c)
  {
  }

  lemma EmittedUnlessSkipped(plan: Plan, c: ClassifiedEntry)
    requires !(c.category == StaticAsset || c.index in plan.consumed)
    ensures Emits(plan, c)
  {
  }

  /** A group's first occurrence is another entry than a collapsed one. */
  lemma FirstIsOther(
      entries: seq<ClassifiedEntry>, chains: map<nat, RedirectChain>, groups: seq<PollingGroup>, plan: Plan,
      c: ClassifiedEntry)
    requires Planned(entries, chains, groups, plan) && c in entries && c.index in plan.collapsed
    ensures plan.collapsed[c.index].firstIndex != c.index
  {
    var run, j := CollapsedInRun(entries, chains, groups, plan, c);
    hide GoodChains, GoodGroups, RunFor, PlanOf;
    SameIndexSameEntry(entries, run[0], c);
  }

  /** The flow of a newly emitted entry. */
  lemma FlowOfNew(plan: Plan, es: seq<ClassifiedEntry>, c: ClassifiedEntry)
    requires PlanFits(plan)
    ensures var id := |es| + 1;
            FlowOf(plan, es + [c], |es|) ==
              if c.index in plan.chains then ChainFlow(id, plan.chains[c.index])
              else if c.index in plan.firsts then PollingFirstFlow(id, c, plan.firsts[c.index])
              else if c.index in plan.collapsed then SimpleFlow(id, c, IdOf(es, plan.collapsed[c.index].firstIndex))
              else SimpleFlow(id, c, None)
    ensures c.index in plan.chains ==> plan.chains[c.index].hops != []
    ensures c.index in plan.firsts ==> plan.firsts[c.index].occurrenceIndices != []
  {
    assert (es + [c])[..|es|] == es;
    hide IdOf, ChainFlow, PollingFirstFlow, SimpleFlow;
  }

  lemma AreFlowsSnoc(plan: Plan, es: seq<ClassifiedEntry>, flows: seq<Flow>, c: ClassifiedEntry)
    requires AreFlows(plan, es, flows)
    ensures PlanFits(plan) && AreFlows(plan, es + [c], flows + [FlowOf(plan, es + [c], |es|)])
  {
    hide FlowOf, PlanFits;
    forall k | 0 <= k < |es| ensures FlowOf(plan, es + [c], k) == FlowOf(plan, es, k) {
      FlowOfPrefix(plan, es, [c], k);
    }
  }

  // ---------------------------------------------------------------- numbering

  /** Everything the theorems below assume: flows built for a trace. */
  ghost predicate Built(
      entries: seq<ClassifiedEntry>, chains: map<nat, RedirectChain>, groups: seq<PollingGroup>, plan: Plan,
      es: seq<ClassifiedEntry>, flows: seq<Flow>) {
    Planned(entries, chains, groups, plan) && es == Emitted(plan, ByTime(entries)) && AreFlows(plan, es, flows)
  }

  lemma EmittedFacts(
      entries: seq<ClassifiedEntry>, chains: map<nat, RedirectChain>, groups: seq<PollingGroup>, plan: Plan,
      es: seq<ClassifiedEntry>, flows: seq<Flow>)
    requires Built(entries, chains, groups, plan, es, flows)
    ensures DistinctIndices(es) && SortedBy(StartKey, es)
    ensures forall c :: c in es <==> c in entries && Emits(plan, c)
  {
    ByTimeFacts(entries);
    EmittedKeeps(plan, ByTime(entries));
    EmittedElements(plan, ByTime(entries));
    hide GoodChains, GoodGroups, PlanOf, AreFlows, Emits, ByTime, SortedBy, DistinctIndices;
  }

  /** The first hop of the chain an emitted entry heads is the entry itself. */
  lemma HeadIsEntry(
      entries: seq<ClassifiedEntry>, chains: map<nat, RedirectChain>, groups: seq<PollingGroup>, plan: Plan,
      c: ClassifiedEntry)
    requires Planned(entries, chains, groups, plan) && c in entries && c.index in plan.chains
    ensures plan.chains[c.index].hops != [] && plan.chains[c.index].hops[0] == c && IsNavigation(c)
  {
    hide GoodGroups, FirstsOf, CollapsedOf, DistinctIndices;
    assert GoodChain(entries, c.index, chains[c.index]);
    HopIsNavigation(entries, chains, c.index, 0, c);
  }

  /**
   Flow ids are 1 to n in order; each flow carries the time and category of its first entry, so start times
   never decrease.
   */
  lemma FlowsAreNumbered(
      entries: seq<ClassifiedEntry>, chains: map<nat, RedirectChain>, groups: seq<PollingGroup>, plan: Plan,
      es: seq<ClassifiedEntry>, flows: seq<Flow>)
    requires Built(entries, chains, groups, plan, es, flows)
    ensures |flows| == |es|
    ensures forall k | 0 <= k < |flows| :: flows[k].flowId == k + 1
    ensures forall k | 0 <= k < |flows| ::
      flows[k].harEntryIndices != [] && flows[k].harEntryIndices[0] == es[k].index &&
      flows[k].startedAt == es[k].entry.startedAt && flows[k].category == es[k].category
    ensures forall k, l | 0 <= k <= l < |flows| :: flows[k].startedAt <= flows[l].startedAt
  {
    EmittedFacts(entries, chains, groups, plan, es, flows);
    hide Planned, Emits, Emitted, ByTime, DistinctIndices, IdOf, PlanFits;
    forall k | 0 <= k < |flows|
      ensures flows[k].flowId == k + 1 && flows[k].startedAt == At(es[k]) && flows[k].category == es[k].category
      ensures flows[k].harEntryIndices != [] && flows[k].harEntryIndices[0] == es[k].index
    {
      assert es[k] in es;
      if es[k].index in plan.chains {
        HeadIsEntry(entries, chains, groups, plan, es[k]);
      }
    }
    forall k, l | 0 <= k <= l < |flows| ensures flows[k].startedAt <= flows[l].startedAt {
      assert k < l ==> StartKey(es[k]) <= StartKey(es[l]);
    }
  }

  // ---------------------------------------------------------------- conservation

  function AllIndices(flows: seq<Flow>): seq<nat> {
    if flows == [] then [] else AllIndices(flows[..|flows| - 1]) + flows[|flows| - 1].harEntryIndices
  }

  lemma {:induction false} AllIndicesMembers(flows: seq<Flow>, x: nat)
    ensures x in AllIndices(flows) <==> exists k :: 0 <= k < |flows| && x in flows[k].harEntryIndices
  {
    if flows != [] {
      var front := flows[..|flows| - 1];
      AllIndicesMembers(front, x);
      if x in AllIndices(front) {
        var k :| 0 <= k < |front| && x in front[k].harEntryIndices;
        assert flows[k] == front[k];
      }
      if k :| 0 <= k < |flows| && x in flows[k].harEntryIndices {
        assert k < |front| ==> front[k] == flows[k];
      }
    }
  }

  ghost predicate ApartFlows(f: Flow, g: Flow) { forall x :: !(x in f.harEntryIndices && x in g.harEntryIndices) }

  lemma {:induction false} AllIndicesNoDup(flows: seq<Flow>)
    requires forall k | 0 <= k < |flows| :: NoDup(flows[k].harEntryIndices)
    requires forall k, l | 0 <= k < l < |flows| :: ApartFlows(flows[k], flows[l])
    ensures NoDup(AllIndices(flows))
  {
    if flows != [] {
      var front, last := flows[..|flows| - 1], flows[|flows| - 1];
      AllIndicesNoDup(front);
      var a, b := AllIndices(front), last.harEntryIndices;
      forall x | x in a ensures x !in b {
        AllIndicesMembers(front, x);
        var k :| 0 <= k < |front| && x in front[k].harEntryIndices;
        assert ApartFlows(flows[k], flows[|flows| - 1]);
      }
      NoDupAppend(a, b);
    }
  }

  lemma NoDupAppend(a: seq<nat>, b: seq<nat>)
    requires NoDup(a) && NoDup(b) && forall x | x in a :: x !in b
    ensures NoDup(a + b)
  {
    forall i, j | 0 <= i < j < |a + b| ensures (a + b)[i] != (a + b)[j] {
      if i < |a| <= j {
        assert a[i] in a && b[j - |a|] in b;
      }
    }
  }

  /** The indices of flow `k`: all hops of the chain it stands for, or its own entry. */
  lemma FlowIndices(plan: Plan, es: seq<ClassifiedEntry>, flows: seq<Flow>, k: nat)
    requires AreFlows(plan, es, flows) && k < |es|
    ensures flows[k].harEntryIndices ==
      if es[k].index in plan.chains then IndicesOf(plan.chains[es[k].index].hops) else [es[k].index]
  {
    hide IdOf;
  }

  /** The entry behind an index of flow `k`, as hop `h` of its chain or (with `h` zero) itself. */
  lemma IndexSource(
      entries: seq<ClassifiedEntry>, chains: map<nat, RedirectChain>, groups: seq<PollingGroup>, plan: Plan,
      es: seq<ClassifiedEntry>, flows: seq<Flow>, k: nat, x: nat) returns (c: ClassifiedEntry, h: nat)
    requires Built(entries, chains, groups, plan, es, flows) && k < |es| && x in flows[k].harEntryIndices
    ensures c in entries && c.index == x && c.category != StaticAsset
    ensures if es[k].index in plan.chains
            then h < |plan.chains[es[k].index].hops| && plan.chains[es[k].index].hops[h] == c
            else h == 0 && c == es[k]
    ensures h == 0 ==> c == es[k]
  {
    FlowIndices(plan, es, flows, k);
    EmittedFacts(entries, chains, groups, plan, es, flows);
    assert es[k] in es;
    var y := es[k].index;
    if y in plan.chains {
      HeadIsEntry(entries, chains, groups, plan, es[k]);
      hide AreFlows, GoodGroups, FirstsOf, CollapsedOf, DistinctIndices, Emitted, ByTime;
      assert GoodChain(entries, y, chains[y]);
      h :| 0 <= h < |chains[y].hops| && IndicesOf(chains[y].hops)[h] == x;
      c := chains[y].hops[h];
      assert c in chains[y].hops;
    } else {
      c, h := es[k], 0;
    }
  }

  lemma FlowsApart(
      entries: seq<ClassifiedEntry>, chains: map<nat, RedirectChain>, groups: seq<PollingGroup>, plan: Plan,
      es: seq<ClassifiedEntry>, flows: seq<Flow>, k: nat, l: nat, x: nat)
    requires Built(entries, chains, groups, plan, es, flows) && k < l < |es|
    ensures !(x in flows[k].harEntryIndices && x in flows[l].harEntryIndices)
  {
    if x in flows[k].harEntryIndices && x in flows[l].harEntryIndices {
      var c, h := IndexSource(entries, chains, groups, plan, es, flows, k, x);
      var d, m := IndexSource(entries, chains, groups, plan, es, flows, l, x);
      EmittedFacts(entries, chains, groups, plan, es, flows);
      assert es[k] in es && es[l] in es;
      assert es[k].index != es[l].index;
      hide Emitted, ByTime, AreFlows, GoodGroups, FirstsOf, CollapsedOf;
      SharedIndex(entries, chains, plan, es[k], es[l], h, m);
    }
  }

  /** Two emitted entries whose flows share an index are one entry. */
  lemma SharedIndex(
      entries: seq<ClassifiedEntry>, chains: map<nat, RedirectChain>, plan: Plan,
      a: ClassifiedEntry, b: ClassifiedEntry, h: nat, m: nat)
    requires GoodChains(entries, chains) && plan.chains == chains
    requires plan.consumed == set x, h | x in chains && 0 < h < |chains[x].hops| :: chains[x].hops[h].index
    requires Emits(plan, a) && Emits(plan, b)
    requires a.index in chains ==> h < |chains[a.index].hops|
    requires b.index in chains ==> m < |chains[b.index].hops|
    requires (if a.index in chains then chains[a.index].hops[h].index else a.index) ==
             (if b.index in chains then chains[b.index].hops[m].index else b.index)
    ensures a.index == b.index
  {
    if a.index in chains {
      assert GoodChain(entries, a.index, chains[a.index]);
      assert h > 0 ==> chains[a.index].hops[h].index in plan.consumed;
    }
    if b.index in chains {
      assert GoodChain(entries, b.index, chains[b.index]);
      assert m > 0 ==> chains[b.index].hops[m].index in plan.consumed;
    }
  }

  /** Every entry that is not a static asset is in the flow of some emitted entry. */
  lemma EveryEntryHasFlow(
      entries: seq<ClassifiedEntry>, chains: map<nat, RedirectChain>, groups: seq<PollingGroup>, plan: Plan,
      es: seq<ClassifiedEntry>, flows: seq<Flow>, c: ClassifiedEntry) returns (k: nat)
    requires Built(entries, chains, groups, plan, es, flows) && c in entries && c.category != StaticAsset
    ensures k < |es| && c.index in flows[k].harEntryIndices
  {
    EmittedFacts(entries, chains, groups, plan, es, flows);
    if c.index in plan.consumed {
      var head, x, h := HeadOfConsumed(entries, chains, groups, plan, c);
      hide Planned, Emitted, ByTime, AreFlows, Emits;
      k :| 0 <= k < |es| && es[k] == head;
      FlowIndices(plan, es, flows, k);
      assert IndicesOf(plan.chains[x].hops)[h] == c.index;
    } else {
      assert c in es;
      k :| 0 <= k < |es| && es[k] == c;
      FlowIndices(plan, es, flows, k);
      if c.index in plan.chains {
        HeadIsEntry(entries, chains, groups, plan, c);
        assert IndicesOf(plan.chains[c.index].hops)[0] == c.index;
      }
    }
  }

  /** A consumed entry is a later hop of a chain whose head is emitted. */
  lemma HeadOfConsumed(
      entries: seq<ClassifiedEntry>, chains: map<nat, RedirectChain>, groups: seq<PollingGroup>, plan: Plan,
      c: ClassifiedEntry)
    returns (head: ClassifiedEntry, x: nat, h: nat)
    requires Planned(entries, chains, groups, plan) && c.index in plan.consumed
    ensures x in plan.chains && 0 < h < |plan.chains[x].hops| && plan.chains[x].hops[h].index == c.index
    ensures head == plan.chains[x].hops[0] && head.index == x && head in entries && Emits(plan, head)
  {
    hide GoodGroups, FirstsOf, CollapsedOf, DistinctIndices;
    x, h :| x in chains && 0 < h < |chains[x].hops| && chains[x].hops[h].index == c.index;
    assert GoodChain(entries, x, chains[x]);
    head := chains[x].hops[0];
    assert head in chains[x].hops;
  }

  /**
   Conservation: the flows together hold the index of every entry that is not a static asset exactly once, and
   no other index.
   */
  lemma FlowsConserveEntries(
      entries: seq<ClassifiedEntry>, chains: map<nat, RedirectChain>, groups: seq<PollingGroup>, plan: Plan,
      es: seq<ClassifiedEntry>, flows: seq<Flow>)
    requires Built(entries, chains, groups, plan, es, flows)
    ensures NoDup(AllIndices(flows))
    ensures forall x :: x in AllIndices(flows) <==>
                        exists c :: c in entries && c.index == x && c.category != StaticAsset
  {
    hide Planned, Emitted, ByTime, NoDup, ApartFlows, AllIndices, FlowOf, PlanFits;
    forall k | 0 <= k < |flows| ensures NoDup(flows[k].harEntryIndices) {
      FlowNoDup(entries, chains, groups, plan, es, flows, k);
    }
    forall k, l | 0 <= k < l < |flows| ensures ApartFlows(flows[k], flows[l]) {
      FlowsApartAll(entries, chains, groups, plan, es, flows, k, l);
    }
    AllIndicesNoDup(flows);
    forall x ensures x in AllIndices(flows) <==> exists c :: c in entries && c.index == x && c.category != StaticAsset {
      AllIndicesMembers(flows, x);
      if k :| 0 <= k < |flows| && x in flows[k].harEntryIndices {
        var c, h := IndexSource(entries, chains, groups, plan, es, flows, k, x);
      }
      if c :| c in entries && c.index == x && c.category != StaticAsset {
        var k := EveryEntryHasFlow(entries, chains, groups, plan, es, flows, c);
      }
    }
  }

  lemma FlowsApartAll(
      entries: seq<ClassifiedEntry>, chains: map<nat, RedirectChain>, groups: seq<PollingGroup>, plan: Plan,
      es: seq<ClassifiedEntry>, flows: seq<Flow>, k: nat, l: nat)
    requires Built(entries, chains, groups, plan, es, flows) && k < l < |es|
    ensures ApartFlows(flows[k], flows[l])
  {
    hide Planned, Emitted, ByTime, FlowOf, PlanFits;
    forall x ensures !(x in flows[k].harEntryIndices && x in flows[l].harEntryIndices) {
      FlowsApart(entries, chains, groups, plan, es, flows, k, l, x);
    }
  }

  lemma FlowNoDup(
      entries: seq<ClassifiedEntry>, chains: map<nat, RedirectChain>, groups: seq<PollingGroup>, plan: Plan,
      es: seq<ClassifiedEntry>, flows: seq<Flow>, k: nat)
    requires Built(entries, chains, groups, plan, es, flows) && k < |es|
    ensures NoDup(flows[k].harEntryIndices)
  {
    FlowIndices(plan, es, flows, k);
    hide AreFlows, GoodGroups, FirstsOf, CollapsedOf, Emitted, ByTime;
    var x := es[k].index;
    if x in plan.chains {
      assert GoodChain(entries, x, chains[x]);
      IndicesNoDup(chains[x].hops);
    }
  }

  lemma IndicesNoDup(hops: seq<ClassifiedEntry>)
    requires DistinctIndices(hops)
    ensures NoDup(IndicesOf(hops))
  {
  }

  // ---------------------------------------------------------------- collapse references

  /** The members of a group's run get flows: the first with the group's data, the others collapsed. */
  lemma RunFlows(
      entries: seq<ClassifiedEntry>, chains: map<nat, RedirectChain>, groups: seq<PollingGroup>, plan: Plan,
      g: PollingGroup, run: seq<ClassifiedEntry>, j: nat)
    requires Planned(entries, chains, groups, plan) && g in groups && RunFor(entries, g, run) && j < |run|
    ensures run[j] in entries && Emits(plan, run[j]) && run[j].index !in plan.chains
    ensures j == 0 ==> run[j].index in plan.firsts && plan.firsts[run[j].index] == g
    ensures j > 0 ==>
      run[j].index !in plan.firsts && run[j].index in plan.collapsed && plan.collapsed[run[j].index] == g
  {
    hide FirstsOf, CollapsedOf, GoodChains;
    var x := run[j].index;
    assert run[j] in run;
    XhrIsEmitted(entries, chains, groups, plan, run[j]);
    hide Emits;
    FirstsFacts(groups, x);
    CollapsedFacts(groups, x);
    assert g.occurrenceIndices[j] == x;
    if j > 0 {
      assert g.occurrenceIndices[1..][j - 1] == x;
      GroupWith(groups, plan.collapsed[x], g, x);
      FirstIsUnique(entries, groups, g, run, j);
    } else {
      FirstInGroup(entries, groups, plan.firsts[x]);
      GroupWith(groups, plan.firsts[x], g, x);
    }
  }

  lemma GroupWith(groups: seq<PollingGroup>, g: PollingGroup, h: PollingGroup, x: nat)
    requires g in groups && h in groups && x in g.occurrenceIndices && x in h.occurrenceIndices
    requires forall p, q | 0 <= p < q < |groups| :: ShareNothing(groups[p], groups[q])
    ensures g == h
  {
    var p :| 0 <= p < |groups| && groups[p] == g;
    var q :| 0 <= q < |groups| && groups[q] == h;
    SharedIsSame(groups, p, q, x);
  }

  lemma SharedIsSame(groups: seq<PollingGroup>, p: nat, q: nat, x: nat)
    requires p < |groups| && q < |groups|
    requires forall p, q | 0 <= p < q < |groups| :: ShareNothing(groups[p], groups[q])
    ensures x in groups[p].occurrenceIndices && x in groups[q].occurrenceIndices ==> p == q
  {
    if p < q {
      assert ShareNothing(groups[p], groups[q]);
    } else if q < p {
      assert ShareNothing(groups[q], groups[p]);
    }
  }

  lemma FirstInGroup(entries: seq<ClassifiedEntry>, groups: seq<PollingGroup>, g: PollingGroup)
    requires GoodGroups(entries, groups) && g in groups
    ensures g.firstIndex in g.occurrenceIndices
  {
    hide StrictBy;
    var run :| RunFor(entries, g, run);
    assert IndicesOf(run)[0] == g.firstIndex;
  }

  /** A later member of a group is the first of none. */
  lemma FirstIsUnique(
      entries: seq<ClassifiedEntry>, groups: seq<PollingGroup>, g: PollingGroup, run: seq<ClassifiedEntry>, j: nat)
    requires DistinctIndices(entries) && GoodGroups(entries, groups)
    requires g in groups && RunFor(entries, g, run) && 0 < j < |run|
    ensures forall h | h in groups :: h.firstIndex != run[j].index
  {
    forall h | h in groups ensures h.firstIndex != run[j].index {
      FirstInGroup(entries, groups, h);
      if h.firstIndex == run[j].index {
        assert g.occurrenceIndices[j] == run[j].index;
        GroupWith(groups, h, g, run[j].index);
        LaterIsOther(entries, run, j);
      }
    }
  }

  lemma LaterIsOther(entries: seq<ClassifiedEntry>, run: seq<ClassifiedEntry>, j: nat)
    requires DistinctIndices(entries) && StrictBy(StartKey, run) && 0 < j < |run| && forall c | c in run :: c in entries
    ensures run[0].index != run[j].index
  {
    assert StartKey(run[0]) < StartKey(run[j]);
    assert run[0] in run && run[j] in run;
    SameIndexSameEntry(entries, run[0], run[j]);
  }

  /** The two fields of a flow that concern polling. */
  lemma PollingFields(plan: Plan, es: seq<ClassifiedEntry>, flows: seq<Flow>, k: nat)
    requires AreFlows(plan, es, flows) && k < |es|
    ensures var x := es[k].index;
            && flows[k].collapsedInto ==
               (if x !in plan.chains && x !in plan.firsts && x in plan.collapsed
                then IdOf(es[..k], plan.collapsed[x].firstIndex) else None)
            && flows[k].pollingGroup ==
               (if x !in plan.chains && x in plan.firsts
                then Some(PollingGroupInfo(|plan.firsts[x].occurrenceIndices|, plan.firsts[x].intervalSeconds,
                                           plan.firsts[x].occurrenceIndices[1..]))
                else None)
            && (flows[k].collapsedInto.Some? ==> flows[k].harEntryIndices == [x])
  {
    hide IdOf;
  }

  /** Where the first of a collapsed occurrence's group stands among the emitted entries. */
  lemma CollapsedPlace(
      entries: seq<ClassifiedEntry>, chains: map<nat, RedirectChain>, groups: seq<PollingGroup>, plan: Plan,
      es: seq<ClassifiedEntry>, flows: seq<Flow>, k: nat) returns (p: nat)
    requires Built(entries, chains, groups, plan, es, flows) && k < |es| && es[k].index in plan.collapsed
    ensures p < k && es[p].index == plan.collapsed[es[k].index].firstIndex
    ensures es[p].index !in plan.chains && es[p].index in plan.firsts
    ensures es[k].index !in plan.chains && es[k].index !in plan.firsts
    ensures plan.collapsed[es[k].index] in groups && DistinctIndices(es)
  {
    EmittedFacts(entries, chains, groups, plan, es, flows);
    assert es[k] in es;
    var c := es[k];
    var g := plan.collapsed[c.index];
    hide Planned, Emits, Emitted, ByTime, RunFor, AreFlows, DistinctIndices, SortedBy, StartKey;
    var run, j := CollapsedInRun(entries, chains, groups, plan, c);
    RunFlows(entries, chains, groups, plan, g, run, j);
    RunFlows(entries, chains, groups, plan, g, run, 0);
    p :| 0 <= p < |es| && es[p] == run[0];
    EarlierInTime(es, p, k);
  }

  /** Which flows refer to another: exactly those of collapsed occurrences, each to the flow of its group's first. */
  lemma CollapsedFlow(
      entries: seq<ClassifiedEntry>, chains: map<nat, RedirectChain>, groups: seq<PollingGroup>, plan: Plan,
      es: seq<ClassifiedEntry>, flows: seq<Flow>, k: nat)
    requires Built(entries, chains, groups, plan, es, flows) && k < |es|
    ensures es[k].index in plan.collapsed ==>
      && flows[k].collapsedInto.Some?
      && 1 <= flows[k].collapsedInto.value <= k
      && es[flows[k].collapsedInto.value - 1].index == plan.collapsed[es[k].index].firstIndex
      && flows[flows[k].collapsedInto.value - 1].pollingGroup.Some?
    ensures flows[k].collapsedInto.Some? ==> es[k].index in plan.collapsed && flows[k].harEntryIndices == [es[k].index]
  {
    hide Planned, Emits, Emitted, ByTime, AreFlows, IdOf, SortedBy, StartKey, DistinctIndices, FlowOf;
    PollingFields(plan, es, flows, k);
    if es[k].index in plan.collapsed {
      var p := CollapsedPlace(entries, chains, groups, plan, es, flows, k);
      PollingFields(plan, es, flows, p);
      IdOfPrefix(es, k, p);
      hide *;
    }
  }

  lemma IdOfPrefix(es: seq<ClassifiedEntry>, k: nat, p: nat)
    requires DistinctIndices(es) && p < k <= |es|
    ensures IdOf(es[..k], es[p].index) == Some(p + 1)
  {
    assert es[..k][p] == es[p];
    IdOfAt(es[..k], p);
  }

  /** Every reference resolves: to a flow with a smaller id that carries a polling group. */
  lemma CollapseResolves(
      entries: seq<ClassifiedEntry>, chains: map<nat, RedirectChain>, groups: seq<PollingGroup>, plan: Plan,
      es: seq<ClassifiedEntry>, flows: seq<Flow>, k: nat)
    requires Built(entries, chains, groups, plan, es, flows) && k < |flows| && flows[k].collapsedInto.Some?
    ensures Resolves(flows, k)
  {
    FlowsAreNumbered(entries, chains, groups, plan, es, flows);
    CollapsedFlow(entries, chains, groups, plan, es, flows, k);
    hide *;
  }

  /** The indices of the flows collapsed into one flow, in flow order. */
  function CollapsedInto(flows: seq<Flow>, id: nat): seq<nat> {
    if flows == [] then []
    else
      var last := flows[|flows| - 1];
      CollapsedInto(flows[..|flows| - 1], id) + if last.collapsedInto == Some(id) then last.harEntryIndices else []
  }

  predicate Follows(plan: Plan, first: nat, c: ClassifiedEntry) {
    c.index in plan.collapsed && plan.collapsed[c.index].firstIndex == first
  }

  function Followers(plan: Plan, first: nat, es: seq<ClassifiedEntry>): seq<ClassifiedEntry> {
    if es == [] then []
    else Followers(plan, first, es[..|es| - 1]) + if Follows(plan, first, es[|es| - 1]) then [es[|es| - 1]] else []
  }

  lemma {:induction false} FollowersFacts(plan: Plan, first: nat, es: seq<ClassifiedEntry>)
    requires DistinctIndices(es) && SortedBy(StartKey, es)
    ensures DistinctIndices(Followers(plan, first, es)) && SortedBy(StartKey, Followers(plan, first, es))
    ensures forall c :: c in Followers(plan, first, es) <==> c in es && Follows(plan, first, c)
  {
    hide Follows, StartKey, DistinctIndices, SortedBy;
    if es != [] {
      var front, last := es[..|es| - 1], es[|es| - 1];
      FrontFacts(es);
      FollowersFacts(plan, first, front);
      assert es == front + [last];
      FollowersSnoc(Followers(plan, first, front), front, last);
      assert Followers(plan, first, front) + [] == Followers(plan, first, front);
    } else {
      NoEntries();
    }
  }

  lemma NoEntries()
    ensures DistinctIndices([]) && SortedBy(StartKey, [])
  {
  }

  lemma FrontFacts(es: seq<ClassifiedEntry>)
    requires es != [] && DistinctIndices(es) && SortedBy(StartKey, es)
    ensures var front, last := es[..|es| - 1], es[|es| - 1];
            && DistinctIndices(front) && SortedBy(StartKey, front)
            && forall c | c in front :: c.index != last.index && StartKey(c) <= StartKey(last)
  {
    hide StartKey;
  }

  lemma FollowersSnoc(fs: seq<ClassifiedEntry>, front: seq<ClassifiedEntry>, last: ClassifiedEntry)
    requires DistinctIndices(fs) && SortedBy(StartKey, fs) && forall c | c in fs :: c in front
    requires forall c | c in front :: c.index != last.index && StartKey(c) <= StartKey(last)
    ensures DistinctIndices(fs + [last]) && SortedBy(StartKey, fs + [last])
  {
    hide StartKey;
    forall i | 0 <= i < |fs| ensures fs[i].index != last.index && StartKey(fs[i]) <= StartKey(last) {
      assert fs[i] in fs;
    }
  }

  lemma {:induction false} CollapsedIntoFollowers(
      plan: Plan, first: nat, es: seq<ClassifiedEntry>, flows: seq<Flow>, id: nat)
    requires |es| == |flows|
    requires forall k | 0 <= k < |es| :: flows[k].collapsedInto == Some(id) <==> Follows(plan, first, es[k])
    requires forall k | 0 <= k < |es| && flows[k].collapsedInto == Some(id) :: flows[k].harEntryIndices == [es[k].index]
    ensures CollapsedInto(flows, id) == IndicesOf(Followers(plan, first, es))
  {
    hide Follows;
    if es != [] {
      var n := |es| - 1;
      CollapsedIntoFollowers(plan, first, es[..n], flows[..n], id);
    }
  }

  /** Who follows the first of a group: exactly the later members of its run. */
  lemma FollowersOfRun(
      entries: seq<ClassifiedEntry>, chains: map<nat, RedirectChain>, groups: seq<PollingGroup>, plan: Plan,
      g: PollingGroup, run: seq<ClassifiedEntry>, c: ClassifiedEntry)
    requires Planned(entries, chains, groups, plan) && g in groups && RunFor(entries, g, run) && c in entries
    ensures Emits(plan, c) && Follows(plan, g.firstIndex, c) <==> c in run[1..]
  {
    hide GoodChains, GoodGroups, PlanOf, Emits, StrictBy, StartKey, DistinctIndices;
    if Follows(plan, g.firstIndex, c) {
      FollowerIsLater(entries, chains, groups, plan, g, run, c);
    }
    if c in run[1..] {
      var i :| 0 <= i < |run[1..]| && run[1..][i] == c;
      RunFlows(entries, chains, groups, plan, g, run, i + 1);
    }
  }

  lemma FollowerIsLater(
      entries: seq<ClassifiedEntry>, chains: map<nat, RedirectChain>, groups: seq<PollingGroup>, plan: Plan,
      g: PollingGroup, run: seq<ClassifiedEntry>, c: ClassifiedEntry)
    requires Planned(entries, chains, groups, plan) && g in groups && RunFor(entries, g, run) && c in entries
    requires Follows(plan, g.firstIndex, c)
    ensures c in run[1..]
  {
    hide GoodChains, PlanOf, Emits, StrictBy, StartKey, DistinctIndices;
    var run', j := CollapsedInRun(entries, chains, groups, plan, c);
    var g' := plan.collapsed[c.index];
    FirstInGroup(entries, groups, g);
    FirstInGroup(entries, groups, g');
    GroupWith(groups, g, g', g.firstIndex);
    assert g.occurrenceIndices[j] == run'[j].index == run[j].index;
    assert run[j] in run;
    SameEntry(entries, c, run[j]);
    assert run[1..][j - 1] == c;
  }

  lemma FollowersAreRun(
      entries: seq<ClassifiedEntry>, chains: map<nat, RedirectChain>, groups: seq<PollingGroup>, plan: Plan,
      es: seq<ClassifiedEntry>, flows: seq<Flow>, g: PollingGroup, run: seq<ClassifiedEntry>)
    requires Built(entries, chains, groups, plan, es, flows) && g in groups && RunFor(entries, g, run)
    ensures Followers(plan, g.firstIndex, es) == run[1..]
  {
    EmittedFacts(entries, chains, groups, plan, es, flows);
    FollowersFacts(plan, g.firstIndex, es);
    var fs, rest := Followers(plan, g.firstIndex, es), run[1..];
    RunInEntries(entries, g, run);
    hide Planned, Emits, Emitted, ByTime, AreFlows, Follows, RunFor, Followers, StartKey;
    forall c ensures c in fs <==> c in rest {
      if c in entries {
        FollowersOfRun(entries, chains, groups, plan, g, run, c);
      }
    }
    StrictFromSorted(fs, rest);
    StrictUnique(StartKey, fs, rest);
  }

  lemma RunInEntries(entries: seq<ClassifiedEntry>, g: PollingGroup, run: seq<ClassifiedEntry>)
    requires RunFor(entries, g, run)
    ensures run != [] && StrictBy(StartKey, run[1..]) && forall c | c in run[1..] :: c in entries
  {
    hide StartKey;
  }

  /** A time-sorted list without repeated entries, all from a strictly increasing list, is strictly increasing. */
  lemma StrictFromSorted(s: seq<ClassifiedEntry>, strict: seq<ClassifiedEntry>)
    requires SortedBy(StartKey, s) && DistinctIndices(s)
    requires StrictBy(StartKey, strict) && forall c | c in s :: c in strict
    ensures StrictBy(StartKey, s)
  {
    hide StartKey;
    forall i, j | 0 <= i < j < |s| ensures StartKey(s[i]) < StartKey(s[j]) {
      assert s[i] in strict && s[j] in strict;
      var a :| 0 <= a < |strict| && strict[a] == s[i];
      var b :| 0 <= b < |strict| && strict[b] == s[j];
      StrictAt(strict, a, b);
    }
  }

  lemma StrictAt(strict: seq<ClassifiedEntry>, a: nat, b: nat)
    requires StrictBy(StartKey, strict) && a < |strict| && b < |strict| && a != b
    ensures StartKey(strict[a]) <= StartKey(strict[b]) ==> StartKey(strict[a]) < StartKey(strict[b])
  {
    hide StartKey;
  }

  /**
   A flow that carries a polling group knows exactly the flows collapsed into it: their indices, in flow
   order, are its list, and it counts one occurrence more.
   */
  lemma {:induction false} GroupListsItsFlows(
      entries: seq<ClassifiedEntry>, chains: map<nat, RedirectChain>, groups: seq<PollingGroup>, plan: Plan,
      es: seq<ClassifiedEntry>, flows: seq<Flow>, p: nat)
    requires Built(entries, chains, groups, plan, es, flows) && p < |flows| && flows[p].pollingGroup.Some?
    ensures ListsItsFlows(flows, p)
  {
    FlowsAreNumbered(entries, chains, groups, plan, es, flows);
    PollingFields(plan, es, flows, p);
    var x := es[p].index;
    var g := plan.firsts[x];
    FirstsInGroups(entries, chains, groups, plan, x);
    var run :| RunFor(entries, g, run);
    FollowersAreRun(entries, chains, groups, plan, es, flows, g, run);
    RestOfRun(entries, g, run);
    forall k | 0 <= k < |es|
      ensures flows[k].collapsedInto == Some(p + 1) <==> Follows(plan, x, es[k])
      ensures flows[k].collapsedInto == Some(p + 1) ==> flows[k].harEntryIndices == [es[k].index]
    {
      FollowsIff(entries, chains, groups, plan, es, flows, p, k);
    }
    hide *;
    CollapsedIntoFollowers(plan, x, es, flows, p + 1);
  }

  lemma FirstsInGroups(
      entries: seq<ClassifiedEntry>, chains: map<nat, RedirectChain>, groups: seq<PollingGroup>, plan: Plan, x: nat)
    requires Planned(entries, chains, groups, plan) && x in plan.firsts
    ensures plan.firsts[x] in groups && plan.firsts[x].firstIndex == x
    ensures exists run :: RunFor(entries, plan.firsts[x], run)
  {
    hide FirstsOf, CollapsedOf, GoodChains, DistinctIndices, RunFor;
    FirstsFacts(groups, x);
  }

  lemma RestOfRun(entries: seq<ClassifiedEntry>, g: PollingGroup, run: seq<ClassifiedEntry>)
    requires RunFor(entries, g, run)
    ensures IndicesOf(run[1..]) == g.occurrenceIndices[1..] && |g.occurrenceIndices| >= 1
  {
    hide StrictBy;
  }

  lemma FollowsIff(
      entries: seq<ClassifiedEntry>, chains: map<nat, RedirectChain>, groups: seq<PollingGroup>, plan: Plan,
      es: seq<ClassifiedEntry>, flows: seq<Flow>, p: nat, k: nat)
    requires Built(entries, chains, groups, plan, es, flows) && p < |es| && k < |es|
    ensures flows[k].collapsedInto == Some(p + 1) <==> Follows(plan, es[p].index, es[k])
    ensures flows[k].collapsedInto == Some(p + 1) ==> flows[k].harEntryIndices == [es[k].index]
  {
    CollapsedFlow(entries, chains, groups, plan, es, flows, k);
    EmittedFacts(entries, chains, groups, plan, es, flows);
    hide Planned, Emits, Emitted, ByTime, AreFlows, IdOf;
    if es[k].index in plan.collapsed {
      var q: nat := flows[k].collapsedInto.value - 1;
      assert es[q].index == es[p].index <==> q == p by { IndicesDecide(es, q, p); }
    }
  }

  lemma IndicesDecide(es: seq<ClassifiedEntry>, q: nat, p: nat)
    requires DistinctIndices(es) && q < |es| && p < |es|
    ensures es[q].index == es[p].index <==> q == p
  {
  }

  // ---------------------------------------------------------------- redirect flows

  /**
   The hops of a redirect flow: each answers 3xx with a Location that resolves to the next hop's URL; the last
   shows none.
   */
  predicate HopsLeadOn(web: Web, hops: seq<RedirectHop>) {
    && |hops| >= 2 && hops[|hops| - 1].location.None?
    && forall h | 0 <= h < |hops| - 1 :: LeadsTo(web, hops[h], hops[h + 1])
  }

  predicate LeadsTo(web: Web, hop: RedirectHop, next: RedirectHop) {
    300 <= hop.status <= 399 && hop.location.Some? && web.UrlJoin(hop.url, hop.location.value) == next.url
  }

  /** A hop shows the URL and the status of the entry with its index, and no other Location than that entry's. */
  ghost predicate ShowsEntry(classified: seq<ClassifiedEntry>, hop: RedirectHop) {
    exists c :: c in classified && c.index == hop.index
                && hop.url == c.entry.request.url && hop.status == c.entry.response.status
                && (hop.location.Some? ==> hop.location == HeaderValue(c.entry.response.headers, "location"))
  }

  /** What a flow shows of its redirects: nothing, or one hop for each of its entries, and hops that lead on. */
  ghost predicate ShowsRedirects(web: Web, classified: seq<ClassifiedEntry>, flow: Flow) {
    flow.redirectChain == flow.redirectHops.Some? &&
    (flow.redirectHops.Some? ==>
       var hops := flow.redirectHops.value;
       && HopsLeadOn(web, hops) && |hops| == |flow.harEntryIndices|
       && (forall h | 0 <= h < |hops| :: hops[h].index == flow.harEntryIndices[h])
       && (forall h | 0 <= h < |hops| :: ShowsEntry(classified, hops[h])))
  }

  lemma RedirectFlowsLeadOn(web: Web, classified: seq<ClassifiedEntry>, flows: seq<Flow>, k: nat)
    requires AreFlowsOf(web, classified, flows) && k < |flows|
    ensures ShowsRedirects(web, classified, flows[k])
  {
    hide AreChains, Navs, Built, ShowsRedirects, Emitted, ByTime, PollingGroups;
    var chains, plan :| AreChains(web, Navs(classified), chains) &&
      Built(classified, chains, PollingGroups(web, classified), plan, Emitted(plan, ByTime(classified)), flows);
    PlannedFlows(classified, chains, PollingGroups(web, classified), plan, Emitted(plan, ByTime(classified)), flows);
    NavElements(classified);
    RedirectFlow(web, classified, Navs(classified), plan, Emitted(plan, ByTime(classified)), flows, k);
  }

  lemma PlannedFlows(
      entries: seq<ClassifiedEntry>, chains: map<nat, RedirectChain>, groups: seq<PollingGroup>, plan: Plan,
      es: seq<ClassifiedEntry>, flows: seq<Flow>)
    requires Built(entries, chains, groups, plan, es, flows)
    ensures AreFlows(plan, es, flows) && plan.chains == chains
  {
    hide AreFlows, GoodChains, GoodGroups, Emitted, ByTime, DistinctIndices, FirstsOf, CollapsedOf;
  }

  lemma RedirectFlow(
      web: Web, classified: seq<ClassifiedEntry>, nav: seq<ClassifiedEntry>, plan: Plan, es: seq<ClassifiedEntry>,
      flows: seq<Flow>, k: nat)
    requires AreChains(web, nav, plan.chains) && AreFlows(plan, es, flows) && k < |flows|
    requires forall c | c in nav :: c in classified
    ensures ShowsRedirects(web, classified, flows[k])
  {
    hide AreChains, AreFlows, IsRun, HopsLeadOn, ShowsEntry;
    ChainOrNone(plan, es, flows, k);
    if flows[k].redirectHops.Some? {
      var x := ChainOfFlow(plan, es, flows, k);
      var i, e := ChainIsMaximalRun(web, nav, plan.chains, x);
      RunLeadsOn(web, nav, i, e);
      RunBounds(web, nav, i, e);
      forall h | 0 <= h < |plan.chains[x].hops| ensures ShowsEntry(classified, HopsOf(plan.chains[x].hops)[h]) {
        assert plan.chains[x].hops[h] == nav[i + h];
        HopShowsEntry(classified, plan.chains[x].hops, h);
      }
    }
  }

  lemma RunBounds(web: Web, nav: seq<ClassifiedEntry>, i: nat, e: nat)
    requires IsRun(web, nav, i, e)
    ensures i < e < |nav|
  {
  }

  lemma HopShowsEntry(classified: seq<ClassifiedEntry>, hops: seq<ClassifiedEntry>, h: nat)
    requires h < |hops| && hops[h] in classified
    ensures ShowsEntry(classified, HopsOf(hops)[h])
  {
    hide HeaderValue;
  }

  lemma ChainOrNone(plan: Plan, es: seq<ClassifiedEntry>, flows: seq<Flow>, k: nat)
    requires AreFlows(plan, es, flows) && k < |flows|
    ensures flows[k].redirectChain == flows[k].redirectHops.Some?
  {
  }

  lemma ChainOfFlow(plan: Plan, es: seq<ClassifiedEntry>, flows: seq<Flow>, k: nat) returns (x: nat)
    requires AreFlows(plan, es, flows) && k < |flows| && flows[k].redirectHops.Some?
    ensures x in plan.chains && plan.chains[x].hops != [] && flows[k] == ChainFlow(k + 1, plan.chains[x])
  {
    x := es[k].index;
  }

  lemma RunLeadsOn(web: Web, nav: seq<ClassifiedEntry>, i: nat, e: nat)
    requires IsRun(web, nav, i, e)
    ensures HopsLeadOn(web, HopsOf(nav[i..e + 1]))
  {
    var run := nav[i..e + 1];
    var hops := HopsOf(run);
    forall h | 0 <= h < |hops| - 1 ensures LeadsTo(web, hops[h], hops[h + 1]) {
      assert Link(web, nav, i + h);
    }
  }

  // ---------------------------------------------------------------- every chain and every group has its flow

  /** A flow for the first of a polling group: with the group's count, interval and later occurrences. */
  predicate IsFlowOfGroup(flow: Flow, g: PollingGroup) {
    && |g.occurrenceIndices| >= 1 && flow.harEntryIndices == [g.firstIndex] && !flow.redirectChain
    && flow.collapsedInto == None
    && flow.pollingGroup ==
       Some(PollingGroupInfo(|g.occurrenceIndices|, g.intervalSeconds, g.occurrenceIndices[1..]))
  }

  lemma PlanOfFlows(web: Web, classified: seq<ClassifiedEntry>, flows: seq<Flow>) returns (plan: Plan)
    requires AreFlowsOf(web, classified, flows)
    ensures AreChains(web, Navs(classified), plan.chains)
    ensures Built(classified, plan.chains, PollingGroups(web, classified), plan,
                  Emitted(plan, ByTime(classified)), flows)
  {
    hide AreChains, Navs, Built, Emitted, ByTime, PollingGroups;
    var chains;
    chains, plan :| AreChains(web, Navs(classified), chains) &&
      Built(classified, chains, PollingGroups(web, classified), plan, Emitted(plan, ByTime(classified)), flows);
    PlannedFlows(classified, chains, PollingGroups(web, classified), plan, Emitted(plan, ByTime(classified)), flows);
  }

  /** Every polling group has its flow, and a flow that carries a polling group is one of those. */
  lemma GroupsHaveFlows(web: Web, classified: seq<ClassifiedEntry>, flows: seq<Flow>)
    requires AreFlowsOf(web, classified, flows)
    ensures forall g | g in PollingGroups(web, classified) :: exists flow :: flow in flows && IsFlowOfGroup(flow, g)
    ensures forall flow | flow in flows && flow.pollingGroup.Some? ::
              exists g :: g in PollingGroups(web, classified) && IsFlowOfGroup(flow, g)
  {
    hide PollingGroups, IsFlowOfGroup, AreFlowsOf, Built, Emitted, ByTime, AreChains, Navs;
    var plan := PlanOfFlows(web, classified, flows);
    var groups, es := PollingGroups(web, classified), Emitted(plan, ByTime(classified));
    forall g | g in groups ensures exists flow :: flow in flows && IsFlowOfGroup(flow, g) {
      var p := FlowOfGroup(classified, plan.chains, groups, plan, es, flows, g);
      assert flows[p] in flows;
    }
    forall flow | flow in flows && flow.pollingGroup.Some? ensures exists g :: g in groups && IsFlowOfGroup(flow, g) {
      var p :| 0 <= p < |flows| && flows[p] == flow;
      var g := GroupOfFlow(classified, plan.chains, groups, plan, es, flows, p);
    }
  }

  lemma FlowOfGroup(
      entries: seq<ClassifiedEntry>, chains: map<nat, RedirectChain>, groups: seq<PollingGroup>, plan: Plan,
      es: seq<ClassifiedEntry>, flows: seq<Flow>, g: PollingGroup)
    returns (p: nat)
    requires Built(entries, chains, groups, plan, es, flows) && g in groups
    ensures p < |flows| && IsFlowOfGroup(flows[p], g)
  {
    EmittedFacts(entries, chains, groups, plan, es, flows);
    var run := RunOfGroup(entries, chains, groups, plan, g);
    hide Planned, Emits, Emitted, ByTime, RunFor, DistinctIndices, SortedBy, StartKey;
    RunFlows(entries, chains, groups, plan, g, run, 0);
    p :| 0 <= p < |es| && es[p] == run[0];
    FirstFlowIs(plan, es, flows, p, g);
  }

  lemma RunOfGroup(
      entries: seq<ClassifiedEntry>, chains: map<nat, RedirectChain>, groups: seq<PollingGroup>, plan: Plan,
      g: PollingGroup)
    returns (run: seq<ClassifiedEntry>)
    requires Planned(entries, chains, groups, plan) && g in groups
    ensures RunFor(entries, g, run) && |run| >= 1 && run[0].index == g.firstIndex && g.occurrenceIndices != []
  {
    hide GoodChains, DistinctIndices, StrictBy;
    run :| RunFor(entries, g, run);
  }

  lemma FirstFlowIs(plan: Plan, es: seq<ClassifiedEntry>, flows: seq<Flow>, p: nat, g: PollingGroup)
    requires AreFlows(plan, es, flows) && p < |es| && es[p].index == g.firstIndex && g.occurrenceIndices != []
    requires es[p].index !in plan.chains && es[p].index in plan.firsts && plan.firsts[es[p].index] == g
    ensures IsFlowOfGroup(flows[p], g)
  {
  }

  lemma GroupOfFlow(
      entries: seq<ClassifiedEntry>, chains: map<nat, RedirectChain>, groups: seq<PollingGroup>, plan: Plan,
      es: seq<ClassifiedEntry>, flows: seq<Flow>, p: nat)
    returns (g: PollingGroup)
    requires Built(entries, chains, groups, plan, es, flows) && p < |flows| && flows[p].pollingGroup.Some?
    ensures g in groups && IsFlowOfGroup(flows[p], g)
  {
    PollingFields(plan, es, flows, p);
    var x := es[p].index;
    g := plan.firsts[x];
    FirstsInGroups(entries, chains, groups, plan, x);
    var run := RunOfGroup(entries, chains, groups, plan, g);
    hide Planned, Emitted, ByTime;
    FirstFlowIs(plan, es, flows, p, g);
  }

  /** Every redirect chain has its flow, with the chain's entries in order. */
  lemma ChainsHaveFlows(
      web: Web, classified: seq<ClassifiedEntry>, flows: seq<Flow>, chains: map<nat, RedirectChain>, x: nat)
    returns (p: nat)
    requires AreFlowsOf(web, classified, flows) && AreChains(web, Navs(classified), chains) && x in chains
    ensures p < |flows| && flows[p].redirectChain && flows[p].harEntryIndices == IndicesOf(chains[x].hops)
  {
    hide AreChains, Navs, Built, Emitted, ByTime, PollingGroups, AreFlowsOf;
    var plan := PlanOfFlows(web, classified, flows);
    ChainsUnique(web, Navs(classified), chains, plan.chains);
    var groups, es := PollingGroups(web, classified), Emitted(plan, ByTime(classified));
    p := FlowOfChain(classified, chains, groups, plan, es, flows, x);
  }

  lemma FlowOfChain(
      entries: seq<ClassifiedEntry>, chains: map<nat, RedirectChain>, groups: seq<PollingGroup>, plan: Plan,
      es: seq<ClassifiedEntry>, flows: seq<Flow>, x: nat)
    returns (p: nat)
    requires Built(entries, chains, groups, plan, es, flows) && x in chains
    ensures p < |flows| && flows[p].redirectChain && flows[p].harEntryIndices == IndicesOf(chains[x].hops)
  {
    EmittedFacts(entries, chains, groups, plan, es, flows);
    PlannedFlows(entries, chains, groups, plan, es, flows);
    var head := HeadIsEmitted(entries, chains, groups, plan, x);
    hide Planned, Emits, Emitted, ByTime, DistinctIndices, SortedBy, StartKey;
    p :| 0 <= p < |es| && es[p] == head;
  }

  /** The first hop of a chain is no later hop of any, so it is emitted. */
  lemma HeadIsEmitted(
      entries: seq<ClassifiedEntry>, chains: map<nat, RedirectChain>, groups: seq<PollingGroup>, plan: Plan, x: nat)
    returns (head: ClassifiedEntry)
    requires Planned(entries, chains, groups, plan) && x in chains
    ensures head in entries && Emits(plan, head) && head.index == x
  {
    hide GoodGroups, FirstsOf, CollapsedOf, DistinctIndices;
    assert GoodChain(entries, x, chains[x]);
    head := chains[x].hops[0];
    assert head in chains[x].hops;
  }
}
