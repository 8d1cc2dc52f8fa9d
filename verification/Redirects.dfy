/** Redirect chains among navigation entries. */
module Redirects {
  import opened Basics
  import opened Strings
  import opened Har
  import opened Sorting
  import opened Entries
  import IsoTime

  datatype RedirectChain = RedirectChain(hops: seq<ClassifiedEntry>)

  /** The navigation entries in time order. */
  function Navs(entries: seq<ClassifiedEntry>): seq<ClassifiedEntry> { ByTime(Filter(IsNavigation, entries)) }

  predicate IsRedirectStatus(status: int) { 300 <= status < 400 }

  function Location(c: ClassifiedEntry): Option<string> { HeaderValue(c.entry.response.headers, "location") }

  /** Entry `k` redirects to the navigation after it: a 3xx whose Location resolves to the next entry's URL. */
  predicate Link(web: Web, nav: seq<ClassifiedEntry>, k: nat) {
    && k + 1 < |nav|
    && IsRedirectStatus(nav[k].entry.response.status)
    && Location(nav[k]).Some?
    && nav[k + 1].entry.request.url == web.UrlJoin(nav[k].entry.request.url, Location(nav[k]).value)
  }

  /** The first entry from `i` on that does not redirect to its successor. */
  function RunEnd(web: Web, nav: seq<ClassifiedEntry>, i: nat): (e: nat)
    requires i < |nav|
    ensures i <= e < |nav| && !Link(web, nav, e)
    ensures forall k: nat | i <= k < e :: Link(web, nav, k)
    decreases |nav| - i
  {
    if Link(web, nav, i) then RunEnd(web, nav, i + 1) else i
  }

  /** A maximal run of links starts here. */
  predicate Head(web: Web, nav: seq<ClassifiedEntry>, i: nat) {
    i < |nav| && Link(web, nav, i) && (i == 0 || !Link(web, nav, i - 1))
  }

  function HopsFrom(web: Web, nav: seq<ClassifiedEntry>, i: nat): seq<ClassifiedEntry>
    requires i < |nav|
  {
    nav[i..RunEnd(web, nav, i) + 1]
  }

  /** The chains keyed by the index of their first hop are exactly the maximal runs of links. */
  ghost predicate AreChains(web: Web, nav: seq<ClassifiedEntry>, chains: map<nat, RedirectChain>) {
    && (forall x | x in chains :: exists i: nat :: Head(web, nav, i) && nav[i].index == x)
    && (forall i: nat | Head(web, nav, i) ::
          nav[i].index in chains && chains[nav[i].index].hops == HopsFrom(web, nav, i))
  }

  /**
   Before candidate `i` chains have reached up to `frontier`, and the consumed entries are those linked to from
   the entry before them.
   */
  ghost predicate Reached(web: Web, nav: seq<ClassifiedEntry>, i: nat, frontier: nat, consumed: set<nat>) {
    && (forall k: nat | k < |nav| :: nav[k].index in consumed <==> 0 < k <= frontier && Link(web, nav, k - 1))
    && (i == 0 ==> frontier == 0)
    && (i > 0 ==> i - 1 <= frontier < |nav| && !Link(web, nav, frontier))
    && (i > 0 ==> forall k: nat | i - 1 <= k < frontier :: Link(web, nav, k))
  }

  /** The chains are those headed before `i`. */
  ghost predicate Headed(web: Web, nav: seq<ClassifiedEntry>, i: nat, chains: map<nat, RedirectChain>) {
    && (forall x | x in chains :: exists k: nat | k < i :: Head(web, nav, k) && nav[k].index == x)
    && (forall k: nat | k < i && Head(web, nav, k) ::
          nav[k].index in chains && chains[nav[k].index].hops == HopsFrom(web, nav, k))
  }

  ghost predicate Progress(
      web: Web, nav: seq<ClassifiedEntry>, i: nat, frontier: nat, consumed: set<nat>, chains: map<nat, RedirectChain>) {
    Reached(web, nav, i, frontier, consumed) && Headed(web, nav, i, chains)
  }

  /** `detect_redirect_chains`. */
  method DetectRedirectChains(web: Web, entries: seq<ClassifiedEntry>) returns (chains: map<nat, RedirectChain>)
    requires DistinctIndices(entries)
    ensures AreChains(web, Navs(entries), chains)
  {
    hide *;
    var nav := Navs(entries);
    NavsDistinct(entries);
    chains := map[];
    var consumed: set<nat> := {};
    ghost var frontier: nat := 0;
    AtStart(web, nav);
    for i := 0 to |nav|
      invariant Progress(web, nav, i, frontier, consumed, chains)
    {
      var candidate := nav[i];
      if candidate.index in consumed {
        PassConsumed(web, nav, i, frontier, consumed, chains);
        continue;
      }
      if !IsRedirectStatus(candidate.entry.response.status) {
        NoRedirectNoLink(web, nav, i);
        Followed(web, nav, i, frontier, consumed, chains, consumed);
        frontier := i;
        continue;
      }
      var hops, c, j := FollowLinks(web, nav, i, consumed);
      Followed(web, nav, i, frontier, consumed, chains, c);
      consumed := c;
      frontier := j - 1;
      if |hops| > 1 {
        chains := chains[candidate.index := RedirectChain(hops)];
      }
    }
    AtEnd(web, nav, frontier, consumed, chains);
  }

  lemma NavsDistinct(entries: seq<ClassifiedEntry>)
    requires DistinctIndices(entries)
    ensures DistinctIndices(Navs(entries))
  {
    FilterKeepsDistinct(IsNavigation, entries);
    ByTimeFacts(Filter(IsNavigation, entries));
    hide DistinctIndices, Filter, ByTime;
  }

  lemma AtStart(web: Web, nav: seq<ClassifiedEntry>)
    ensures Progress(web, nav, 0, 0, {}, map[])
  {
    hide Link;
  }

  lemma AtEnd(
      web: Web, nav: seq<ClassifiedEntry>, frontier: nat, consumed: set<nat>, chains: map<nat, RedirectChain>)
    requires Progress(web, nav, |nav|, frontier, consumed, chains)
    ensures AreChains(web, nav, chains)
  {
    hide Link, HopsFrom;
  }

  /** A consumed candidate is inside the run that reached it. */
  lemma PassConsumed(
      web: Web, nav: seq<ClassifiedEntry>, i: nat, frontier: nat, consumed: set<nat>, chains: map<nat, RedirectChain>)
    requires i < |nav| && nav[i].index in consumed && Progress(web, nav, i, frontier, consumed, chains)
    ensures Progress(web, nav, i + 1, frontier, consumed, chains)
  {
    hide Link, HopsFrom;
    assert !Head(web, nav, i);
  }

  /**
   A candidate that is not consumed is followed to the end of its run, and heads a chain if that is longer than
   itself.
   */
  lemma Followed(
      web: Web, nav: seq<ClassifiedEntry>, i: nat, frontier: nat, before: set<nat>, chains: map<nat, RedirectChain>,
      after: set<nat>)
    requires i < |nav| && DistinctIndices(nav) && nav[i].index !in before
    requires Progress(web, nav, i, frontier, before, chains)
    requires forall k: nat | k < |nav| ::
      nav[k].index in after <==> nav[k].index in before || i < k <= RunEnd(web, nav, i)
    ensures var hops := HopsFrom(web, nav, i);
            var next := if |hops| > 1 then chains[nav[i].index := RedirectChain(hops)] else chains;
            Progress(web, nav, i + 1, RunEnd(web, nav, i), after, next)
    ensures !Link(web, nav, i) ==> RunEnd(web, nav, i) == i && |HopsFrom(web, nav, i)| == 1
  {
    HopsAreLinked(web, nav, i);
    FollowedReached(web, nav, i, frontier, before, after);
    FollowedHeaded(web, nav, i, chains);
    assert !Link(web, nav, i) ==> RunEnd(web, nav, i) == i;
    hide *;
  }

  lemma FollowedReached(web: Web, nav: seq<ClassifiedEntry>, i: nat, frontier: nat, before: set<nat>, after: set<nat>)
    requires i < |nav| && nav[i].index !in before && Reached(web, nav, i, frontier, before)
    requires forall k: nat | k < |nav| ::
      nav[k].index in after <==> nav[k].index in before || i < k <= RunEnd(web, nav, i)
    ensures Reached(web, nav, i + 1, RunEnd(web, nav, i), after)
    ensures Head(web, nav, i) <==> Link(web, nav, i)
  {
    hide Link, RunEnd;
    FrontierPassed(web, nav, i, frontier, before);
    var e := RunEnd(web, nav, i);
    forall k: nat | k < |nav| ensures nav[k].index in after <==> 0 < k <= e && Link(web, nav, k - 1) {
      assert i < k <= e ==> Link(web, nav, k - 1);
    }
    hide Reached;
    assert Reached(web, nav, i + 1, e, after) by {
      ReachedIs(web, nav, i + 1, e, after);
    }
  }

  lemma FrontierPassed(web: Web, nav: seq<ClassifiedEntry>, i: nat, frontier: nat, before: set<nat>)
    requires i < |nav| && nav[i].index !in before && Reached(web, nav, i, frontier, before)
    ensures i > 0 ==> frontier == i - 1 && !Link(web, nav, i - 1)
    ensures forall k: nat | k < |nav| :: nav[k].index in before <==> 0 < k < i && Link(web, nav, k - 1)
  {
    hide Link;
  }

  lemma ReachedIs(web: Web, nav: seq<ClassifiedEntry>, i: nat, frontier: nat, consumed: set<nat>)
    requires i > 0 && i - 1 <= frontier < |nav| && !Link(web, nav, frontier)
    requires forall k: nat | k < |nav| :: nav[k].index in consumed <==> 0 < k <= frontier && Link(web, nav, k - 1)
    requires forall k: nat | i - 1 <= k < frontier :: Link(web, nav, k)
    ensures Reached(web, nav, i, frontier, consumed)
  {
    hide Link;
  }

  lemma FollowedHeaded(web: Web, nav: seq<ClassifiedEntry>, i: nat, chains: map<nat, RedirectChain>)
    requires i < |nav| && DistinctIndices(nav) && Headed(web, nav, i, chains)
    requires Head(web, nav, i) <==> Link(web, nav, i)
    ensures var hops := HopsFrom(web, nav, i);
            Headed(web, nav, i + 1, if |hops| > 1 then chains[nav[i].index := RedirectChain(hops)] else chains)
  {
    hide Link, Head, HopsFrom, RunEnd, DistinctIndices;
    HopsAreLinked(web, nav, i);
    IndicesDiffer(nav, i);
  }

  lemma IndicesDiffer(nav: seq<ClassifiedEntry>, i: nat)
    requires i < |nav| && DistinctIndices(nav)
    ensures forall k: nat | k < i :: nav[k].index != nav[i].index
  {
  }

  lemma NoRedirectNoLink(web: Web, nav: seq<ClassifiedEntry>, k: nat)
    requires k < |nav| && !IsRedirectStatus(nav[k].entry.response.status)
    ensures !Link(web, nav, k)
  {
  }

  lemma HopsAreLinked(web: Web, nav: seq<ClassifiedEntry>, i: nat)
    requires i < |nav|
    ensures |HopsFrom(web, nav, i)| == RunEnd(web, nav, i) + 1 - i
    ensures |HopsFrom(web, nav, i)| > 1 <==> Link(web, nav, i)
  {
    hide Link;
  }

  /** The inner loop of `detect_redirect_chains`: the hops from `i`, with the later ones added to `consumed`. */
  method FollowLinks(web: Web, nav: seq<ClassifiedEntry>, i: nat, before: set<nat>)
    returns (hops: seq<ClassifiedEntry>, consumed: set<nat>, j: nat)
    requires i < |nav| && DistinctIndices(nav)
    ensures hops == HopsFrom(web, nav, i) && j == RunEnd(web, nav, i) + 1
    ensures forall k: nat | k < |nav| :: nav[k].index in consumed <==> nav[k].index in before || i < k < j
  {
    consumed := before;
    hops := [nav[i]];
    var current := nav[i];
    j := i + 1;
    while j < |nav| && IsRedirectStatus(current.entry.response.status)
      invariant i < j <= |nav| && hops == nav[i..j] && current == nav[j - 1]
      invariant forall k: nat | i <= k < j - 1 :: Link(web, nav, k)
      invariant forall k: nat | k < |nav| :: nav[k].index in consumed <==> nav[k].index in before || i < k < j
    {
      var location := Location(current);
      if location.None? {
        break;
      }
      var nextUrl := web.UrlJoin(current.entry.request.url, location.value);
      if nav[j].entry.request.url != nextUrl {
        break;
      }
      hops := hops + [nav[j]];
      consumed := consumed + {nav[j].index};
      current := nav[j];
      j := j + 1;
    }
    RunEndUnique(web, nav, i, j - 1);
  }

  lemma {:induction false} RunEndUnique(web: Web, nav: seq<ClassifiedEntry>, i: nat, e: nat)
    requires i <= e < |nav| && !Link(web, nav, e)
    requires forall k: nat | i <= k < e :: Link(web, nav, k)
    ensures RunEnd(web, nav, i) == e
  {
    hide Link;
    var r := RunEnd(web, nav, i);
    assert !Link(web, nav, r) && !Link(web, nav, e);
  }

  // ---------------------------------------------------------------- what the chains are

  /** A chain is a maximal run of linked navigations, of at least two. */
  ghost predicate IsRun(web: Web, nav: seq<ClassifiedEntry>, i: nat, e: nat) {
    && i < e < |nav|
    && (forall k: nat | i <= k < e :: Link(web, nav, k))
    && (i > 0 ==> !Link(web, nav, i - 1))
    && !Link(web, nav, e)
  }

  lemma ChainIsMaximalRun(
      web: Web, nav: seq<ClassifiedEntry>, chains: map<nat, RedirectChain>, x: nat) returns (i: nat, e: nat)
    requires AreChains(web, nav, chains) && x in chains
    ensures IsRun(web, nav, i, e) && nav[i].index == x && chains[x].hops == nav[i..e + 1]
  {
    hide Link;
    i :| Head(web, nav, i) && nav[i].index == x;
    e := RunEnd(web, nav, i);
    hide RunEnd;
  }

  /** And every maximal run is a chain: a link lies inside one. */
  lemma LinkIsInChain(web: Web, nav: seq<ClassifiedEntry>, chains: map<nat, RedirectChain>, k: nat)
    returns (x: nat, i: nat, e: nat)
    requires AreChains(web, nav, chains) && Link(web, nav, k)
    ensures x in chains && IsRun(web, nav, i, e) && i <= k < e && chains[x].hops == nav[i..e + 1]
  {
    hide Link, RunEnd;
    i := RunStart(web, nav, k);
    e := RunEnd(web, nav, i);
    x := nav[i].index;
    assert Head(web, nav, i);
  }

  lemma {:induction false} RunStart(web: Web, nav: seq<ClassifiedEntry>, k: nat) returns (i: nat)
    requires Link(web, nav, k)
    ensures i <= k && Head(web, nav, i) && k < RunEnd(web, nav, i)
  {
    hide Link, RunEnd;
    LinkInside(web, nav, k);
    i := k;
    while i > 0 && Link(web, nav, i - 1)
      invariant i <= k < |nav| && forall m: nat | i <= m <= k :: Link(web, nav, m)
    {
      i := i - 1;
    }
    assert !Link(web, nav, RunEnd(web, nav, i));
  }

  lemma LinkInside(web: Web, nav: seq<ClassifiedEntry>, k: nat)
    requires Link(web, nav, k)
    ensures k + 1 < |nav|
  {
  }

  /** Chains share no entry, and no chain is keyed by a later hop of a chain. */
  lemma ChainsAreDisjoint(
      web: Web, nav: seq<ClassifiedEntry>, chains: map<nat, RedirectChain>, x: nat, y: nat, a: nat, b: nat)
    requires AreChains(web, nav, chains) && DistinctIndices(nav) && x in chains && y in chains
    requires a < |chains[x].hops| && b < |chains[y].hops|
    requires chains[x].hops[a].index == chains[y].hops[b].index
    ensures x == y && a == b
  {
    hide AreChains, Link;
    var i, e := ChainIsMaximalRun(web, nav, chains, x);
    var i', e' := ChainIsMaximalRun(web, nav, chains, y);
    assert chains[x].hops[a] == nav[i + a] && chains[y].hops[b] == nav[i' + b];
    assert i + a == i' + b;
    assert i' > 0 ==> !Link(web, nav, i' - 1);
    assert i > 0 ==> !Link(web, nav, i - 1);
  }

  lemma KeyIsNoLaterHop(web: Web, nav: seq<ClassifiedEntry>, chains: map<nat, RedirectChain>, x: nat, y: nat, b: nat)
    requires AreChains(web, nav, chains) && DistinctIndices(nav) && x in chains && y in chains
    requires 0 < b < |chains[y].hops|
    ensures chains[y].hops[b].index != x
  {
    var i, e := ChainIsMaximalRun(web, nav, chains, x);
    hide AreChains, Link;
    assert chains[x].hops[0] == nav[i];
    if chains[y].hops[b].index == x {
      ChainsAreDisjoint(web, nav, chains, x, y, 0, b);
    }
  }

  ghost predicate EndsInFinal(chain: RedirectChain) {
    chain.hops != [] && !IsRedirectStatus(chain.hops[|chain.hops| - 1].entry.response.status)
  }

  /** A navigation that was redirected to and is itself a redirect leads on to the next navigation. */
  ghost predicate RedirectsLeadOn(web: Web, nav: seq<ClassifiedEntry>) {
    forall k: nat | Link(web, nav, k) && IsRedirectStatus(nav[k + 1].entry.response.status) :: Link(web, nav, k + 1)
  }

  /**
   The class describes the last hop as the final, non-redirect response. That holds of every chain exactly
   when no navigation that was redirected to is itself a redirect away from the trace: a 3xx without
   Location, or whose target is not the next navigation.
   */
  lemma ChainsEndInFinalIff(web: Web, nav: seq<ClassifiedEntry>, chains: map<nat, RedirectChain>)
    requires AreChains(web, nav, chains)
    ensures (forall x | x in chains :: EndsInFinal(chains[x])) <==> RedirectsLeadOn(web, nav)
  {
    hide AreChains;
    if forall x | x in chains :: EndsInFinal(chains[x]) {
      forall k: nat | Link(web, nav, k) && IsRedirectStatus(nav[k + 1].entry.response.status)
        ensures Link(web, nav, k + 1)
      {
        FinalChainsFollow(web, nav, chains, k);
      }
    }
    if RedirectsLeadOn(web, nav) {
      forall x | x in chains ensures EndsInFinal(chains[x]) {
        var i, e := ChainIsMaximalRun(web, nav, chains, x);
        var k: nat := e - 1;
        hide Link;
        assert Link(web, nav, k) && !Link(web, nav, k + 1);
        assert chains[x].hops[e - i] == nav[e];
      }
    }
  }

  lemma FinalChainsFollow(web: Web, nav: seq<ClassifiedEntry>, chains: map<nat, RedirectChain>, k: nat)
    requires AreChains(web, nav, chains) && forall x | x in chains :: EndsInFinal(chains[x])
    requires Link(web, nav, k) && IsRedirectStatus(nav[k + 1].entry.response.status)
    ensures Link(web, nav, k + 1)
  {
    hide Link, AreChains;
    LinkInside(web, nav, k);
    var x, i, e := LinkIsInChain(web, nav, chains, k);
    assert chains[x].hops[e - i] == nav[e];
    assert EndsInFinal(chains[x]);
  }

  /** An example: a link to a 302 that carries no Location. */
  function Hop(index: nat, at: IsoTime.Timestamp, url: string, headers: seq<HarHeader>): ClassifiedEntry {
    ClassifiedEntry(index,
      HarEntry(at, "1.0", HarRequest("GET", url, "1.1", [], []), HarResponse(302, "Found", "1.1", headers, [])),
      Navigation, true)
  }

  /** It fails for two redirects in a row of which the second has no Location. */
  lemma ChainEndingInRedirect(web: Web, chains: map<nat, RedirectChain>)
    requires web.UrlJoin("http://a/", "/b") == "http://a/b"
    requires AreChains(web, [Hop(0, 0, "http://a/", [HarHeader("location", "/b")]), Hop(1, 1, "http://a/b", [])],
                       chains)
    ensures 0 in chains && !EndsInFinal(chains[0])
  {
    var first, second := Hop(0, 0, "http://a/", [HarHeader("location", "/b")]), Hop(1, 1, "http://a/b", []);
    var nav := [first, second];
    assert Location(first) == Some("/b") && Link(web, nav, 0);
    assert Head(web, nav, 0);
    RunEndUnique(web, nav, 0, 1);
    assert chains[0].hops == nav[0..2];
  }

  // ---------------------------------------------------------------- what is linked

  /** The candidates are the navigation entries, in the order of their times. */
  lemma NavsInOrder(entries: seq<ClassifiedEntry>)
    ensures var nav := Navs(entries);
            && (forall c :: c in nav <==> c in entries && c.category == Navigation)
            && (forall i, j | 0 <= i < j < |nav| :: nav[i].entry.startedAt <= nav[j].entry.startedAt)
  {
    NavElements(entries);
    ByTimeFacts(Filter(IsNavigation, entries));
    hide ByTime, Filter, SortedBy, DistinctIndices;
  }

  lemma NavElements(entries: seq<ClassifiedEntry>)
    ensures forall c :: c in Navs(entries) <==> c in entries && c.category == Navigation
  {
    FilterElements(IsNavigation, entries);
    ByTimeFacts(Filter(IsNavigation, entries));
    hide ByTime, Filter, SortedBy, DistinctIndices;
  }

  /** A link is a 3xx status and a Location, its name in any case, that resolves to the URL of the next navigation. */
  lemma LinkIff(web: Web, nav: seq<ClassifiedEntry>, k: nat)
    ensures Link(web, nav, k) <==>
      && k + 1 < |nav| && 300 <= nav[k].entry.response.status <= 399
      && exists i: nat ::
           var headers := nav[k].entry.response.headers;
           && FirstNamed(headers, "location", i)
           && nav[k + 1].entry.request.url == web.UrlJoin(nav[k].entry.request.url, headers[i].value)
  {
    if k + 1 < |nav| {
      var headers := nav[k].entry.response.headers;
      hide HeaderValue, SameButCase, FirstNamed;
      if Link(web, nav, k) {
        HeaderValueIff(headers, "location", Location(nav[k]).value);
      }
      forall i: nat | FirstNamed(headers, "location", i)
        ensures i < |headers| && Location(nav[k]) == Some(headers[i].value)
      {
        NamedInRange(headers, i);
        HeaderValueIff(headers, "location", headers[i].value);
      }
    }
  }

  lemma NamedInRange(headers: seq<HarHeader>, i: nat)
    requires FirstNamed(headers, "location", i)
    ensures i < |headers|
  {
  }

  /** There is only one map of the chains. */
  lemma ChainsUnique(web: Web, nav: seq<ClassifiedEntry>, a: map<nat, RedirectChain>, b: map<nat, RedirectChain>)
    requires AreChains(web, nav, a) && AreChains(web, nav, b)
    ensures a == b
  {
    hide HopsFrom, Link;
    forall x ensures x in a <==> x in b {
      if x in a {
        var i: nat :| Head(web, nav, i) && nav[i].index == x;
      }
      if x in b {
        var i: nat :| Head(web, nav, i) && nav[i].index == x;
      }
    }
    forall x | x in a ensures a[x] == b[x] {
      var i: nat :| Head(web, nav, i) && nav[i].index == x;
      assert a[x].hops == b[x].hops;
    }
  }
}
