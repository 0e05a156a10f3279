/** The validation report: per-endpoint figures from the ledger's entries, and the verdict. */
module Report {
  import opened ByteStrings
  import opened Ledger
  import opened Sums

  datatype PathStats = PathStats(total: int, passed: int, failed: int, sumLatMs: int,
                                 avgLatMs: int, ready: bool, headers: map<string, string>)

  const NO_STATS := PathStats(0, 0, 0, 0, 0, false, map[])

  function KeyOf(e: Entry): string { e.verb + " " + e.path }

  // ---------------------------------------------------------------- group by, as a definition

  /** The entries of one endpoint, in log order. */
  function EntriesOf(entries: seq<Entry>, key: string): seq<Entry> {
    if entries == [] then []
    else
      var e := entries[|entries| - 1];
      EntriesOf(entries[..|entries| - 1], key) + if KeyOf(e) == key then [e] else []
  }

  function Keys(entries: seq<Entry>): set<string> {
    set i | 0 <= i < |entries| :: KeyOf(entries[i])
  }

  function Passed(entries: seq<Entry>): int {
    if entries == [] then 0
    else Passed(entries[..|entries| - 1]) + if entries[|entries| - 1].passed then 1 else 0
  }

  function Latency(entries: seq<Entry>): int {
    if entries == [] then 0
    else Latency(entries[..|entries| - 1]) + entries[|entries| - 1].latencyMs
  }

  function LatestHeaders(entries: seq<Entry>): map<string, string> {
    if entries == [] then map[]
    else LatestHeaders(entries[..|entries| - 1]) + entries[|entries| - 1].headers
  }

  /** The figures of a group of entries, before rates are computed. */
  function StatsOf(group: seq<Entry>): PathStats {
    PathStats(|group|, Passed(group), |group| - Passed(group), Latency(group), 0, false, LatestHeaders(group))
  }

  function GroupBy(entries: seq<Entry>): map<string, PathStats> {
    map key | key in Keys(entries) :: StatsOf(EntriesOf(entries, key))
  }

  /** Entry `i` is the latest to carry a response header. */
  ghost predicate Latest(entries: seq<Entry>, name: string, i: int) {
    && 0 <= i < |entries| && name in entries[i].headers
    && forall j :: i < j < |entries| ==> name !in entries[j].headers
  }

  /** The observed value of a response header is the one of the latest entry that carries it. */
  lemma {:induction false} LatestValue(entries: seq<Entry>, name: string)
    ensures name in LatestHeaders(entries) <==> exists i :: Latest(entries, name, i)
    ensures forall i :: Latest(entries, name, i) ==>
              name in LatestHeaders(entries) && LatestHeaders(entries)[name] == entries[i].headers[name]
    decreases |entries|
  {
    if entries != [] {
      var last := |entries| - 1;
      var before := entries[..last];
      LatestValue(before, name);
      LatestStep(entries, name);
      hide Latest;
      if name in entries[last].headers {
        assert Latest(entries, name, last);
      } else if i :| Latest(before, name, i) {
        assert Latest(entries, name, i);
      }
    }
  }

  lemma LatestStep(entries: seq<Entry>, name: string)
    requires entries != []
    ensures var last := |entries| - 1;
            forall i :: Latest(entries, name, i) <==>
              if name in entries[last].headers then i == last else Latest(entries[..last], name, i)
  {
  }

  // ---------------------------------------------------------------- the aggregation loop

  /** One entry added to its endpoint's figures. */
  function Add(ps: PathStats, e: Entry): PathStats {
    ps.(total := ps.total + 1,
        sumLatMs := ps.sumLatMs + e.latencyMs,
        passed := ps.passed + if e.passed then 1 else 0,
        failed := ps.failed + if e.passed then 0 else 1,
        headers := ps.headers + e.headers)
  }

  function Lookup(m: map<string, PathStats>, key: string): PathStats {
    if key in m then m[key] else NO_STATS
  }

  lemma StatsSnoc(group: seq<Entry>, e: Entry)
    ensures StatsOf(group + [e]) == Add(StatsOf(group), e)
  {
    assert (group + [e])[..|group + [e]| - 1] == group;
  }

  lemma {:induction false} NoEntries(entries: seq<Entry>, key: string)
    requires key !in Keys(entries)
    ensures EntriesOf(entries, key) == []
    decreases |entries|
  {
    if entries != [] {
      var before := entries[..|entries| - 1];
      assert KeyOf(entries[|entries| - 1]) in Keys(entries);
      forall k | k in Keys(before)
        ensures k in Keys(entries)
      {
        var i :| 0 <= i < |before| && KeyOf(before[i]) == k;
        assert KeyOf(entries[i]) == k;
      }
      NoEntries(before, key);
    }
  }

  lemma KeysSnoc(entries: seq<Entry>, e: Entry)
    ensures Keys(entries + [e]) == Keys(entries) + {KeyOf(e)}
  {
    var all := entries + [e];
    forall k | k in Keys(entries) + {KeyOf(e)}
      ensures k in Keys(all)
    {
      if k == KeyOf(e) {
        assert KeyOf(all[|entries|]) == k;
      } else {
        var i :| 0 <= i < |entries| && KeyOf(entries[i]) == k;
        assert KeyOf(all[i]) == k;
      }
    }
  }

  lemma EntriesSnoc(entries: seq<Entry>, e: Entry, key: string)
    ensures EntriesOf(entries + [e], key) == EntriesOf(entries, key) + if KeyOf(e) == key then [e] else []
  {
    assert (entries + [e])[..|entries + [e]| - 1] == entries;
  }

  /** The loop's step on its map is the definition's step on the log. */
  lemma GroupSnoc(entries: seq<Entry>, e: Entry)
    ensures GroupBy(entries + [e]) ==
            GroupBy(entries)[KeyOf(e) := Add(Lookup(GroupBy(entries), KeyOf(e)), e)]
  {
    hide KeyOf, StatsOf, EntriesOf, Keys, Add;
    var all, key := entries + [e], KeyOf(e);
    KeysSnoc(entries, e);
    forall k | k in Keys(all)
      ensures StatsOf(EntriesOf(all, k)) ==
              if k == key then Add(Lookup(GroupBy(entries), key), e) else StatsOf(EntriesOf(entries, k))
    {
      EntriesSnoc(entries, e, k);
      StatsSnoc(EntriesOf(entries, k), e);
      assert EntriesOf(entries, k) + [] == EntriesOf(entries, k);
      if k == key && key !in Keys(entries) {
        NoEntries(entries, key);
        EmptyStats();
      }
    }
  }

  lemma EmptyStats()
    ensures StatsOf([]) == NO_STATS
  {
  }

  method Aggregate(entries: seq<Entry>) returns (byPath: map<string, PathStats>, passed: int, totalLatencyMs: int)
    ensures byPath == GroupBy(entries)
    ensures passed == Passed(entries) && totalLatencyMs == Latency(entries)
  {
    hide GroupBy, KeyOf;
    byPath, passed, totalLatencyMs := map[], 0, 0;
    NoGroups();
    for i := 0 to |entries|
      invariant byPath == GroupBy(entries[..i])
      invariant passed == Passed(entries[..i]) && totalLatencyMs == Latency(entries[..i])
    {
      var e := entries[i];
      assert entries[..i + 1] == entries[..i] + [e] && entries[..i + 1][..i] == entries[..i];
      GroupSnoc(entries[..i], e);
      if e.passed {
        passed := passed + 1;
      }
      totalLatencyMs := totalLatencyMs + e.latencyMs;
      var key := KeyOf(e);
      var ps := if key in byPath then byPath[key] else NO_STATS;
      ps := ps.(total := ps.total + 1, sumLatMs := ps.sumLatMs + e.latencyMs);
      if e.passed {
        ps := ps.(passed := ps.passed + 1);
      } else {
        ps := ps.(failed := ps.failed + 1);
      }
      ps := ps.(headers := ps.headers + e.headers);
      byPath := byPath[key := ps];
    }
    assert entries[..|entries|] == entries;
  }

  lemma NoGroups()
    ensures GroupBy([]) == map[]
  {
  }

  // ---------------------------------------------------------------- groups add up to the whole

  function Totals(g: map<string, PathStats>): map<string, int> { map k | k in g :: g[k].total }
  function Passes(g: map<string, PathStats>): map<string, int> { map k | k in g :: g[k].passed }
  function Latencies(g: map<string, PathStats>): map<string, int> { map k | k in g :: g[k].sumLatMs }

  lemma SumsUpdate(g: map<string, PathStats>, key: string, ps: PathStats)
    ensures var was := Lookup(g, key);
            && Sum(Totals(g[key := ps])) == Sum(Totals(g)) - was.total + ps.total
            && Sum(Passes(g[key := ps])) == Sum(Passes(g)) - was.passed + ps.passed
            && Sum(Latencies(g[key := ps])) == Sum(Latencies(g)) - was.sumLatMs + ps.sumLatMs
  {
    assert Totals(g[key := ps]) == Totals(g)[key := ps.total];
    assert Passes(g[key := ps]) == Passes(g)[key := ps.passed];
    assert Latencies(g[key := ps]) == Latencies(g)[key := ps.sumLatMs];
    SumUpdate(Totals(g), key, ps.total);
    SumUpdate(Passes(g), key, ps.passed);
    SumUpdate(Latencies(g), key, ps.sumLatMs);
  }

  /** Over all endpoints, totals, passes and latencies add up to those of the whole log. */
  lemma {:induction false} GroupsAddUp(entries: seq<Entry>)
    ensures Sum(Totals(GroupBy(entries))) == |entries|
    ensures Sum(Passes(GroupBy(entries))) == Passed(entries)
    ensures Sum(Latencies(GroupBy(entries))) == Latency(entries)
    decreases |entries|
  {
    hide GroupBy, KeyOf, Totals, Passes, Latencies;
    if entries == [] {
      NoGroups();
      NoSums();
    } else {
      var before, e := entries[..|entries| - 1], entries[|entries| - 1];
      assert entries == before + [e];
      GroupsAddUp(before);
      GroupSnoc(before, e);
      var g := GroupBy(before);
      SumsUpdate(g, KeyOf(e), Add(Lookup(g, KeyOf(e)), e));
    }
  }

  lemma NoSums()
    ensures Sum(Totals(map[])) == 0 && Sum(Passes(map[])) == 0 && Sum(Latencies(map[])) == 0
  {
    assert Totals(map[]).Keys == {} && Passes(map[]).Keys == {} && Latencies(map[]).Keys == {};
  }

  lemma {:induction false} GroupSize(entries: seq<Entry>, key: string)
    requires key in Keys(entries)
    ensures |EntriesOf(entries, key)| > 0
    decreases |entries|
  {
    var i :| 0 <= i < |entries| && KeyOf(entries[i]) == key;
    var before := entries[..|entries| - 1];
    if i < |entries| - 1 {
      assert KeyOf(before[i]) == key;
      assert key in Keys(before);
      GroupSize(before, key);
    }
  }

  // ---------------------------------------------------------------- rates and verdict

  /** `safeDiv`, in exact arithmetic. */
  function SafeDiv(a: int, b: int): (q: real)
    ensures if b == 0 then q == 0.0 else q * b as real == a as real
  {
    if b == 0 then 0.0 else a as real / b as real
  }

  /** Go's integer division, which truncates toward zero. */
  function TruncDiv(a: int, b: int): (q: int)
    requires b > 0
    ensures if a >= 0 then q * b <= a < q * b + b else q * b - b < a <= q * b
  {
    if a >= 0 then a / b else -(-a / b)
  }

  /** Pass rate of a group, in percent. */
  function Rate(entries: seq<Entry>): real { SafeDiv(Passed(entries), |entries|) * 100.0 }

  function Judged(ps: PathStats, thresh: real): PathStats {
    if ps.total > 0 then
      ps.(avgLatMs := TruncDiv(ps.sumLatMs, ps.total), ready := SafeDiv(ps.passed, ps.total) * 100.0 >= thresh)
    else ps
  }

  /** The loop over the endpoints. */
  method Judge(byPath: map<string, PathStats>, thresh: real) returns (judged: map<string, PathStats>, allReady: bool)
    ensures judged == map k | k in byPath :: Judged(byPath[k], thresh)
    ensures allReady <==> byPath != map[] && forall k :: k in byPath ==> Judged(byPath[k], thresh).ready
  {
    hide Judged, SafeDiv, TruncDiv;
    judged := byPath;
    allReady := |byPath| > 0;
    var pending := byPath.Keys;
    while pending != {}
      invariant pending <= byPath.Keys
      invariant judged == map k | k in byPath :: if k in pending then byPath[k] else Judged(byPath[k], thresh)
      invariant allReady <==>
                |byPath| > 0 && forall k :: k in byPath && k !in pending ==> Judged(byPath[k], thresh).ready
      decreases pending
    {
      var k :| k in pending;
      pending := pending - {k};
      var ps := JudgeOne(judged[k], thresh);
      judged := judged[k := ps];
      if !ps.ready {
        allReady := false;
      }
    }
  }

  method JudgeOne(ps: PathStats, thresh: real) returns (r: PathStats)
    ensures r == Judged(ps, thresh)
  {
    r := ps;
    if r.total > 0 {
      r := r.(avgLatMs := TruncDiv(r.sumLatMs, r.total));
      var rate := SafeDiv(r.passed, r.total) * 100.0;
      r := r.(ready := rate >= thresh);
    }
  }

  /** The report's verdict: there are entries, and every endpoint reaches the threshold. */
  ghost predicate Ready(entries: seq<Entry>, thresh: real) {
    entries != [] && forall key :: key in Keys(entries) ==> Rate(EntriesOf(entries, key)) >= thresh
  }

  /** The whole report on a log. */
  method Validate(entries: seq<Entry>, thresh: real)
    returns (byPath: map<string, PathStats>, passed: int, avgLatMs: int, ready: bool)
    ensures byPath == map key | key in Keys(entries) :: Judged(StatsOf(EntriesOf(entries, key)), thresh)
    ensures passed == Passed(entries)
    ensures avgLatMs == if entries == [] then 0 else TruncDiv(Latency(entries), |entries|)
    ensures ready <==> Ready(entries, thresh)
  {
    hide Judged, StatsOf, EntriesOf, TruncDiv, Ready, Passed, Latency;
    var groups, passes, totalLatencyMs := Aggregate(entries);
    var allReady;
    byPath, allReady := Judge(groups, thresh);
    passed := passes;
    avgLatMs := 0;
    if |entries| > 0 {
      avgLatMs := TruncDiv(totalLatencyMs, |entries|);
    }
    ready := allReady && |entries| > 0;
    VerdictReads(entries, thresh);
  }

  lemma VerdictReads(entries: seq<Entry>, thresh: real)
    ensures Ready(entries, thresh) <==>
            entries != [] && GroupBy(entries) != map[] &&
            forall k :: k in GroupBy(entries) ==> Judged(GroupBy(entries)[k], thresh).ready
  {
    hide Passed, Latency, LatestHeaders, EntriesOf, SafeDiv, TruncDiv, KeyOf;
    forall k | k in Keys(entries)
      ensures Judged(GroupBy(entries)[k], thresh).ready <==> Rate(EntriesOf(entries, k)) >= thresh
    {
      GroupSize(entries, k);
    }
    if entries != [] {
      assert KeyOf(entries[0]) in Keys(entries);
      assert KeyOf(entries[0]) in GroupBy(entries);
    }
  }

  // ---------------------------------------------------------------- endpoints

  lemma SpaceSplits(a: string, b: string, c: string, d: string)
    requires ' ' !in a && ' ' !in c && a + " " + b == c + " " + d
    ensures a == c && b == d
  {
    var s := a + " " + b;
    IndexSingle(a, b, ' ');
    IndexSingle(c, d, ' ');
    assert s == a + [' '] + b && s == c + [' '] + d;
    assert a == s[..|a|] && c == s[..|c|];
    assert b == s[|a| + 1..] && d == s[|c| + 1..];
  }

  /** Two entries belong to the same endpoint exactly if method and path agree; no method has a space. */
  lemma SameEndpointIff(a: Entry, b: Entry)
    requires ' ' !in a.verb && ' ' !in b.verb
    ensures KeyOf(a) == KeyOf(b) <==> a.verb == b.verb && a.path == b.path
  {
    if KeyOf(a) == KeyOf(b) { SpaceSplits(a.verb, a.path, b.verb, b.path); }
  }

  predicate NoSpaces(entries: seq<Entry>) { forall i :: 0 <= i < |entries| ==> ' ' !in entries[i].verb }

  /** Where the entries of an endpoint stand in the log. */
  function Places(entries: seq<Entry>, verb: string, path: string): set<int> {
    set i | 0 <= i < |entries| && entries[i].verb == verb && entries[i].path == path
  }

  function PassPlaces(entries: seq<Entry>, verb: string, path: string): set<int> {
    set i | 0 <= i < |entries| && entries[i].verb == verb && entries[i].path == path && entries[i].passed
  }

  lemma PlacesSnoc(entries: seq<Entry>, e: Entry, verb: string, path: string)
    ensures Places(entries + [e], verb, path) ==
            Places(entries, verb, path) + if e.verb == verb && e.path == path then {|entries|} else {}
    ensures PassPlaces(entries + [e], verb, path) ==
            PassPlaces(entries, verb, path) + if e.verb == verb && e.path == path && e.passed then {|entries|} else {}
  {
  }

  /** An endpoint's total is the number of its entries, and its passes are the number of those that
      passed. */
  lemma {:induction false} GroupCounts(entries: seq<Entry>, f: Entry)
    requires NoSpaces(entries) && ' ' !in f.verb
    ensures |EntriesOf(entries, KeyOf(f))| == |Places(entries, f.verb, f.path)|
    ensures Passed(EntriesOf(entries, KeyOf(f))) == |PassPlaces(entries, f.verb, f.path)|
    decreases |entries|
  {
    hide KeyOf, Places, PassPlaces, EntriesOf;
    if entries == [] {
      NoPlaces(f);
    } else {
      var before, e := entries[..|entries| - 1], entries[|entries| - 1];
      assert entries == before + [e];
      GroupCounts(before, f);
      SameEndpointIff(e, f);
      EntriesSnoc(before, e, KeyOf(f));
      PlacesSnoc(before, e, f.verb, f.path);
      PlacesBelow(before, f.verb, f.path);
      StatsSnoc(EntriesOf(before, KeyOf(f)), e);
      assert EntriesOf(before, KeyOf(f)) + [] == EntriesOf(before, KeyOf(f));
    }
  }

  function LatencyAt(entries: seq<Entry>, verb: string, path: string): map<int, int> {
    map i | 0 <= i < |entries| && entries[i].verb == verb && entries[i].path == path :: entries[i].latencyMs
  }

  lemma LatencySnoc(entries: seq<Entry>, e: Entry, verb: string, path: string)
    ensures LatencyAt(entries + [e], verb, path) ==
            if e.verb == verb && e.path == path then LatencyAt(entries, verb, path)[|entries| := e.latencyMs]
            else LatencyAt(entries, verb, path)
    ensures |entries| !in LatencyAt(entries, verb, path)
  {
  }

  /** ... and its latency is the sum of theirs. */
  lemma {:induction false} GroupLatency(entries: seq<Entry>, f: Entry)
    requires NoSpaces(entries) && ' ' !in f.verb
    ensures Latency(EntriesOf(entries, KeyOf(f))) == Sum(LatencyAt(entries, f.verb, f.path))
    decreases |entries|
  {
    hide KeyOf, LatencyAt, EntriesOf, Latency;
    if entries == [] {
      NoPlaces(f);
      assert Latency([]) == 0 by { NoLatency(); }
    } else {
      var before, e := entries[..|entries| - 1], entries[|entries| - 1];
      assert entries == before + [e];
      GroupLatency(before, f);
      SameEndpointIff(e, f);
      EntriesSnoc(before, e, KeyOf(f));
      LatencySnoc(before, e, f.verb, f.path);
      SumUpdate(LatencyAt(before, f.verb, f.path), |before|, e.latencyMs);
      AddLatency(EntriesOf(before, KeyOf(f)), e);
      assert EntriesOf(before, KeyOf(f)) + [] == EntriesOf(before, KeyOf(f));
    }
  }

  lemma AddLatency(group: seq<Entry>, e: Entry)
    ensures Latency(group + [e]) == Latency(group) + e.latencyMs
  {
    assert (group + [e])[..|group + [e]| - 1] == group;
  }

  lemma NoLatency()
    ensures Latency([]) == 0
  {
  }

  lemma NoPlaces(f: Entry)
    ensures EntriesOf([], KeyOf(f)) == [] && Places([], f.verb, f.path) == PassPlaces([], f.verb, f.path) == {}
    ensures LatencyAt([], f.verb, f.path).Keys == {}
  {
  }

  lemma PlacesBelow(entries: seq<Entry>, verb: string, path: string)
    ensures |entries| !in Places(entries, verb, path) && |entries| !in PassPlaces(entries, verb, path)
  {
  }

  /** The verdict in terms of the log alone: there are entries, and of the entries of every endpoint in
      it, method and path, at least `thresh` percent passed. */
  lemma VerdictIff(entries: seq<Entry>, thresh: real)
    requires NoSpaces(entries)
    ensures Ready(entries, thresh) <==>
            && entries != []
            && forall i :: 0 <= i < |entries| ==>
                 var (verb, path) := (entries[i].verb, entries[i].path);
                 100.0 * |PassPlaces(entries, verb, path)| as real >= thresh * |Places(entries, verb, path)| as real
  {
    hide KeyOf, Places, PassPlaces, EntriesOf, Passed, SafeDiv;
    forall i | 0 <= i < |entries|
      ensures KeyOf(entries[i]) in Keys(entries)
      ensures Rate(EntriesOf(entries, KeyOf(entries[i]))) >= thresh <==>
              100.0 * |PassPlaces(entries, entries[i].verb, entries[i].path)| as real >=
              thresh * |Places(entries, entries[i].verb, entries[i].path)| as real
    {
      var key := KeyOf(entries[i]);
      assert key in Keys(entries);
      GroupCounts(entries, entries[i]);
      GroupSize(entries, key);
      RateReaches(Passed(EntriesOf(entries, key)), |EntriesOf(entries, key)|, thresh);
    }
  }

  // ---------------------------------------------------------------- what the verdict means

  lemma {:induction false} PassedBounds(entries: seq<Entry>)
    ensures 0 <= Passed(entries) <= |entries|
    ensures Passed(entries) == |entries| <==> forall i :: 0 <= i < |entries| ==> entries[i].passed
    decreases |entries|
  {
    if entries != [] {
      var before := entries[..|entries| - 1];
      PassedBounds(before);
      assert forall i :: 0 <= i < |before| ==> before[i] == entries[i];
    }
  }

  /** `p` of `n` is at least `thresh` percent. */
  predicate Share(p: int, n: int, thresh: real) { p as real * 100.0 >= thresh * n as real }

  /** A rate reaches a threshold exactly if the passes reach that share of the entries. */
  lemma RateReaches(p: int, n: int, thresh: real)
    requires n > 0
    ensures SafeDiv(p, n) * 100.0 >= thresh <==> Share(p, n, thresh)
  {
    var x := p as real / n as real;
    assert x * n as real == p as real;
    if x * 100.0 >= thresh {
      assert (x * 100.0 - thresh) * n as real >= 0.0;
    } else {
      assert (thresh - x * 100.0) * n as real > 0.0;
    }
  }

  lemma ShareAdds(p: int, n: int, p': int, n': int, thresh: real)
    requires Share(p, n, thresh) && Share(p', n', thresh)
    ensures Share(p + p', n + n', thresh)
  {
    var a, b := n as real, n' as real;
    assert thresh * (a + b) == thresh * a + thresh * b;
    assert (n + n') as real == a + b;
    assert (p + p') as real * 100.0 == p as real * 100.0 + p' as real * 100.0;
  }

  lemma ShareOfNothing(thresh: real)
    ensures Share(0, 0, thresh)
  {
    assert thresh * 0.0 == 0.0;
  }

  /** Shares that hold for every key hold for the sums. */
  lemma {:induction false} SharesAddUp(p: map<string, int>, n: map<string, int>, thresh: real)
    requires p.Keys == n.Keys
    requires forall k :: k in p ==> Share(p[k], n[k], thresh)
    ensures Share(Sum(p), Sum(n), thresh)
    decreases p.Keys
  {
    hide Share;
    if p.Keys == {} {
      ShareOfNothing(thresh);
    } else {
      var k := Pick(p.Keys);
      assert (p - {k}).Keys == p.Keys - {k};
      SharesAddUp(p - {k}, n - {k}, thresh);
      SumRemove(p, k);
      SumRemove(n, k);
      ShareAdds(p[k], n[k], Sum(p - {k}), Sum(n - {k}), thresh);
    }
  }

  /** If every endpoint is ready, the overall pass rate reaches the threshold too. */
  lemma VerdictImpliesOverall(entries: seq<Entry>, thresh: real)
    requires Ready(entries, thresh)
    ensures Rate(entries) >= thresh
  {
    hide Keys, EntriesOf, Passed, Latency, LatestHeaders, SafeDiv, KeyOf, Share;
    var g := GroupBy(entries);
    forall k | k in g
      ensures Share(Passes(g)[k], Totals(g)[k], thresh)
    {
      GroupSize(entries, k);
      RateReaches(Passed(EntriesOf(entries, k)), |EntriesOf(entries, k)|, thresh);
    }
    SharesAddUp(Passes(g), Totals(g), thresh);
    GroupsAddUp(entries);
    RateReaches(Passed(entries), |entries|, thresh);
  }

  /** The converse fails: a good overall rate can hide an endpoint that never passes. */
  lemma OverallDoesNotImplyVerdict() returns (entries: seq<Entry>)
    ensures Rate(entries) >= 50.0 && !Ready(entries, 50.0)
  {
    var good := Entry("GET", "/a", 200, 1, true, map[]);
    var bad := Entry("GET", "/b", 500, 1, false, map[]);
    entries := [good, bad];
    assert entries[..1] == [good] && [good][..0] == [];
    assert Passed([good]) == 1 && Passed(entries) == 1;
    RateReaches(1, 2, 50.0);
    var key := KeyOf(bad);
    assert KeyOf(entries[1]) == key && key in Keys(entries);
    assert KeyOf(good)[5] == 'a' && key[5] == 'b';
    assert EntriesOf([], key) == [];
    assert EntriesOf([good], key) == [];
    assert EntriesOf(entries, key) == [bad];
    assert Passed([bad]) == 0;
  }

  /** Lowering the threshold never takes readiness away. */
  lemma ThresholdMonotone(entries: seq<Entry>, lower: real, higher: real)
    requires lower <= higher && Ready(entries, higher)
    ensures Ready(entries, lower)
  {
    hide Rate, Keys, EntriesOf;
  }

  lemma {:induction false} MemberOfGroup(entries: seq<Entry>, i: nat)
    requires i < |entries|
    ensures entries[i] in EntriesOf(entries, KeyOf(entries[i]))
    decreases |entries|
  {
    if i < |entries| - 1 { MemberOfGroup(entries[..|entries| - 1], i); }
  }

  lemma {:induction false} GroupFromEntries(entries: seq<Entry>, key: string)
    ensures forall e :: e in EntriesOf(entries, key) ==> e in entries
    decreases |entries|
  {
    if entries != [] { GroupFromEntries(entries[..|entries| - 1], key); }
  }

  /** At one hundred percent, ready means that there are entries and none failed. */
  lemma ReadyAt100(entries: seq<Entry>)
    ensures Ready(entries, 100.0) <==> entries != [] && forall i :: 0 <= i < |entries| ==> entries[i].passed
  {
    hide EntriesOf, KeyOf, Passed, SafeDiv;
    forall key | key in Keys(entries)
      ensures Rate(EntriesOf(entries, key)) >= 100.0 <==>
              forall i :: 0 <= i < |EntriesOf(entries, key)| ==> EntriesOf(entries, key)[i].passed
    {
      var group := EntriesOf(entries, key);
      GroupSize(entries, key);
      RateReaches(Passed(group), |group|, 100.0);
      PassedBounds(group);
    }
    if Ready(entries, 100.0) {
      forall i | 0 <= i < |entries|
        ensures entries[i].passed
      {
        MemberOfGroup(entries, i);
        assert KeyOf(entries[i]) in Keys(entries);
      }
    } else if forall i :: 0 <= i < |entries| ==> entries[i].passed {
      forall key
        ensures forall e :: e in EntriesOf(entries, key) ==> e.passed
      {
        GroupFromEntries(entries, key);
      }
    }
  }

  // ---------------------------------------------------------------- latencies

  /** A truncated quotient is at least `lo`, in terms without division. */
  predicate AtLeast(s: int, n: int, lo: int) { if lo > 0 then s >= lo * n else s > (lo - 1) * n }

  lemma QuotientBound(q: int, b: int, r: int, lo: int)
    requires 0 <= r < b
    ensures q >= lo <==> q * b + r >= lo * b
  {
    if q >= lo {
      assert (q - lo) * b >= 0;
    } else {
      assert (lo - 1 - q) * b >= 0;
    }
  }

  lemma QuotientAtLeast(a: int, b: int, lo: int)
    requires b > 0
    ensures a / b >= lo <==> a >= lo * b
  {
    QuotientBound(a / b, b, a % b, lo);
  }

  lemma TruncAtLeast(s: int, n: int, lo: int)
    requires n > 0
    ensures TruncDiv(s, n) >= lo <==> AtLeast(s, n, lo)
  {
    if s >= 0 {
      QuotientAtLeast(s, n, lo);
      if lo <= 0 { assert (lo - 1) * n < 0; }
    } else {
      QuotientAtLeast(-s, n, 1 - lo);
      assert (1 - lo) * n == -((lo - 1) * n);
      if lo > 0 { assert lo * n > 0; }
    }
  }

  lemma AtLeastAdds(s: int, n: int, s': int, n': int, lo: int)
    requires AtLeast(s, n, lo) && AtLeast(s', n', lo)
    ensures AtLeast(s + s', n + n', lo)
  {
    var c := if lo > 0 then lo else lo - 1;
    assert c * (n + n') == c * n + c * n';
  }

  lemma {:induction false} AtLeastAddsUp(s: map<string, int>, n: map<string, int>, lo: int)
    requires s.Keys == n.Keys && s.Keys != {}
    requires forall k :: k in s ==> AtLeast(s[k], n[k], lo)
    ensures AtLeast(Sum(s), Sum(n), lo)
    decreases s.Keys
  {
    hide AtLeast;
    var k := Pick(s.Keys);
    assert (s - {k}).Keys == s.Keys - {k} && (n - {k}).Keys == n.Keys - {k};
    SumRemove(s, k);
    SumRemove(n, k);
    if (s - {k}).Keys != {} {
      AtLeastAddsUp(s - {k}, n - {k}, lo);
      AtLeastAdds(s[k], n[k], Sum(s - {k}), Sum(n - {k}), lo);
    }
  }

  lemma {:induction false} SumNegated(s: map<string, int>)
    ensures Sum(Negated(s)) == -Sum(s)
    decreases s.Keys
  {
    if s.Keys != {} {
      var k := Pick(s.Keys);
      assert (s - {k}).Keys == s.Keys - {k};
      SumNegated(s - {k});
      SumRemove(s, k);
      SumRemove(Negated(s), k);
      assert Negated(s) - {k} == Negated(s - {k});
    }
  }

  function Negated(s: map<string, int>): map<string, int> { map k | k in s :: -s[k] }

  /** The truncated global average lies within any bounds that hold all endpoints' averages. */
  lemma AverageBetween(entries: seq<Entry>, lo: int, hi: int)
    requires entries != []
    requires forall key :: key in Keys(entries) ==>
               |EntriesOf(entries, key)| > 0 &&
               lo <= TruncDiv(Latency(EntriesOf(entries, key)), |EntriesOf(entries, key)|) <= hi
    ensures lo <= TruncDiv(Latency(entries), |entries|) <= hi
  {
    hide Keys, EntriesOf, Latency, Passed, LatestHeaders, AtLeast, KeyOf, TruncDiv;
    var g := GroupBy(entries);
    var s, n := Latencies(g), Totals(g);
    FirstKey(entries);
    GroupsAddUp(entries);
    forall k | k in g
      ensures AtLeast(s[k], n[k], lo) && AtLeast(Negated(s)[k], n[k], -hi)
    {
      TruncAtLeast(s[k], n[k], lo);
      TruncNegates(s[k], n[k]);
      TruncAtLeast(-s[k], n[k], -hi);
    }
    AtLeastAddsUp(s, n, lo);
    AtLeastAddsUp(Negated(s), n, -hi);
    SumNegated(s);
    TruncAtLeast(Sum(s), Sum(n), lo);
    TruncNegates(Sum(s), Sum(n));
    TruncAtLeast(-Sum(s), Sum(n), -hi);
  }

  lemma FirstKey(entries: seq<Entry>)
    requires entries != []
    ensures GroupBy(entries).Keys != {}
  {
    assert KeyOf(entries[0]) in Keys(entries);
    assert KeyOf(entries[0]) in GroupBy(entries);
  }

  lemma TruncNegates(s: int, n: int)
    requires n > 0
    ensures TruncDiv(-s, n) == -TruncDiv(s, n)
  {
  }
}
