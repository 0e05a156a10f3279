/** The route table: which requests are mirrored, and under which path. */
module Routes {
  import opened ByteStrings

  datatype Route = Route(apigee: string, ewp: string)

  function Rewrite(r: Route, path: string): string
    requires r.apigee <= path
  {
    r.ewp + path[|r.apigee|..]
  }

  /** The first rule whose prefix the path has decides. */
  function FirstMatch(rules: seq<Route>, path: string): Option<string> {
    if rules == [] then None
    else if rules[0].apigee <= path then Some(Rewrite(rules[0], path))
    else FirstMatch(rules[1..], path)
  }

  /** Without a table every path is forwarded as it is. */
  function Resolve(active: Option<seq<Route>>, path: string): Option<string> {
    if active.None? then Some(path) else FirstMatch(active.value, path)
  }

  /** The configuration string: blank, not JSON, or a list of rules. */
  datatype Config = Blank | Invalid | Rules(rules: seq<Route>)

  class RouteTable {
    var active: Option<seq<Route>>

    constructor ()
      ensures active == None
    {
      active := None;
    }

    method LoadRoutes(raw: Config)
      modifies this
      ensures active == match raw
                        case Blank => None
                        case Invalid => old(active)
                        case Rules(rules) => Some(rules)
    {
      if raw.Blank? {
        active := None;
        return;
      }
      if raw.Invalid? {
        return;
      }
      active := Some(raw.rules);
    }

    method ResolveRoute(path: string) returns (ewpPath: string, forward: bool)
      ensures (if forward then Some(ewpPath) else None) == Resolve(active, path)
      ensures !forward ==> ewpPath == ""
      ensures active.None? ==> forward && ewpPath == path
      ensures active.Some? ==>
                (forward <==> exists i :: 0 <= i < |active.value| && active.value[i].apigee <= path)
      ensures active.Some? ==>
                forall i: nat :: Selects(active.value, path, i) ==>
                  ewpPath == active.value[i].ewp + path[|active.value[i].apigee|..]
    {
      if active.None? {
        return path, true;
      }
      var rules := active.value;
      for i := 0 to |rules|
        invariant FirstMatch(rules, path) == FirstMatch(rules[i..], path)
        invariant forall j :: 0 <= j < i ==> !(rules[j].apigee <= path)
      {
        assert rules[i..][0] == rules[i] && rules[i..][1..] == rules[i + 1..];
        if rules[i].apigee <= path {
          OnlyOneSelected(rules, path, i);
          return rules[i].ewp + path[|rules[i].apigee|..], true;
        }
      }
      assert rules[|rules|..] == [];
      return "", false;
    }
  }

  // ---------------------------------------------------------------- which rule decides

  /** Rule `i` is the first to match. */
  ghost predicate Selects(rules: seq<Route>, path: string, i: nat) {
    i < |rules| && rules[i].apigee <= path && forall j :: 0 <= j < i ==> !(rules[j].apigee <= path)
  }

  lemma OnlyOneSelected(rules: seq<Route>, path: string, i: nat)
    requires Selects(rules, path, i)
    ensures forall k: nat :: Selects(rules, path, k) ==> k == i
  {
    forall k: nat | Selects(rules, path, k)
      ensures k == i
    {
      assert rules[k].apigee <= path && rules[i].apigee <= path;
    }
  }

  lemma {:induction false} FirstMatchIs(rules: seq<Route>, path: string, i: nat)
    requires Selects(rules, path, i)
    ensures FirstMatch(rules, path) == Some(rules[i].ewp + path[|rules[i].apigee|..])
    decreases |rules|
  {
    if i > 0 {
      assert !(rules[0].apigee <= path);
      forall j | 0 <= j < i - 1
        ensures !(rules[1..][j].apigee <= path)
      {
        assert rules[1..][j] == rules[j + 1];
      }
      FirstMatchIs(rules[1..], path, i - 1);
    }
  }

  lemma {:induction false} NoMatch(rules: seq<Route>, path: string)
    requires forall i :: 0 <= i < |rules| ==> !(rules[i].apigee <= path)
    ensures FirstMatch(rules, path) == None
    decreases |rules|
  {
    if rules != [] {
      NoMatch(rules[1..], path);
    }
  }

  lemma {:induction false} SomeSelected(rules: seq<Route>, path: string, k: nat) returns (i: nat)
    requires k < |rules| && rules[k].apigee <= path
    ensures i <= k && Selects(rules, path, i)
  {
    i := 0;
    while !(rules[i].apigee <= path)
      invariant i <= k
      invariant forall j :: 0 <= j < i ==> !(rules[j].apigee <= path)
      decreases k - i
    {
      i := i + 1;
    }
  }

  /** A request is dropped exactly when there is a table and none of its rules matches; an empty
      table, unlike no table, drops everything. */
  lemma DroppedIff(active: Option<seq<Route>>, path: string)
    ensures Resolve(active, path).None? <==>
            active.Some? && forall i :: 0 <= i < |active.value| ==> !(active.value[i].apigee <= path)
    ensures active.None? ==> Resolve(active, path) == Some(path)
  {
    if active.Some? {
      var rules := active.value;
      if k :| 0 <= k < |rules| && rules[k].apigee <= path {
        var i := SomeSelected(rules, path, k);
        FirstMatchIs(rules, path, i);
      } else {
        NoMatch(rules, path);
      }
    }
  }

  lemma PrefixesComparable(a: string, b: string, s: string)
    requires a <= s && b <= s
    ensures a <= b || b <= a
  {
    assert |a| <= |b| ==> a == s[..|a|] == b[..|a|];
    assert |b| <= |a| ==> b == s[..|b|] == a[..|b|];
  }

  // ---------------------------------------------------------------- dead rules

  /** A rule can decide for some path exactly when no earlier prefix is a prefix of its own. */
  lemma LiveIff(rules: seq<Route>, j: nat)
    requires j < |rules|
    ensures (exists path :: Selects(rules, path, j)) <==>
            forall i :: 0 <= i < j ==> !(rules[i].apigee <= rules[j].apigee)
  {
    if forall i :: 0 <= i < j ==> !(rules[i].apigee <= rules[j].apigee) {
      assert Selects(rules, rules[j].apigee, j);
    } else {
      var i :| 0 <= i < j && rules[i].apigee <= rules[j].apigee;
      forall path
        ensures !Selects(rules, path, j)
      {
        PrefixTransitive(rules[i].apigee, rules[j].apigee, path);
      }
    }
  }

  lemma PrefixTransitive(a: string, b: string, s: string)
    ensures a <= b && b <= s ==> a <= s
  {
    assert b <= s && a <= b ==> a == b[..|a|] == s[..|a|];
  }

  /** Dropping a rule whose prefix extends an earlier one changes nothing, on any path. */
  lemma DropShadowed(rules: seq<Route>, i: nat, j: nat, path: string)
    requires i < j < |rules| && rules[i].apigee <= rules[j].apigee
    ensures FirstMatch(rules[..j] + rules[j + 1..], path) == FirstMatch(rules, path)
  {
    var fewer := rules[..j] + rules[j + 1..];
    PrefixTransitive(rules[i].apigee, rules[j].apigee, path);
    if k :| 0 <= k < |rules| && rules[k].apigee <= path {
      var s := SomeSelected(rules, path, k);
      FirstMatchIs(rules, path, s);
      var t := if s < j then s else s - 1;
      assert fewer[t] == rules[s];
      forall n | 0 <= n < t
        ensures !(fewer[n].apigee <= path)
      {
        assert fewer[n] == rules[if n < j then n else n + 1];
      }
      FirstMatchIs(fewer, path, t);
    } else {
      NoMatch(rules, path);
      forall n | 0 <= n < |fewer|
        ensures !(fewer[n].apigee <= path)
      {
        assert fewer[n] == rules[if n < j then n else n + 1];
      }
      NoMatch(fewer, path);
    }
  }

  // ---------------------------------------------------------------- order

  /** No rule's prefix is a prefix of another's. */
  ghost predicate Incomparable(rules: seq<Route>) {
    forall i, j :: 0 <= i < |rules| && 0 <= j < |rules| && i != j ==> !(rules[i].apigee <= rules[j].apigee)
  }

  /** The order of a table of incomparable rules is immaterial. */
  lemma OrderImmaterial(a: seq<Route>, b: seq<Route>, path: string)
    requires multiset(a) == multiset(b) && Incomparable(a)
    ensures FirstMatch(a, path) == FirstMatch(b, path)
  {
    if k :| 0 <= k < |a| && a[k].apigee <= path {
      var s := SomeSelected(a, path, k);
      FirstMatchIs(a, path, s);
      assert a[s] in multiset(b);
      var n :| 0 <= n < |b| && b[n] == a[s];
      var t := SomeSelected(b, path, n);
      FirstMatchIs(b, path, t);
      assert b[t] in multiset(a);
      var u :| 0 <= u < |a| && a[u] == b[t];
      PrefixesComparable(a[s].apigee, a[u].apigee, path);
    } else {
      NoMatch(a, path);
      forall n | 0 <= n < |b|
        ensures !(b[n].apigee <= path)
      {
        assert b[n] in multiset(a);
        var u :| 0 <= u < |a| && a[u] == b[n];
      }
      NoMatch(b, path);
    }
  }

  /** When one prefix extends the other, order is immaterial exactly if both rules rewrite alike. */
  lemma OrderOfNested(r: Route, q: Route)
    requires r.apigee <= q.apigee
    ensures (forall path :: FirstMatch([r, q], path) == FirstMatch([q, r], path)) <==>
            q.ewp == r.ewp + q.apigee[|r.apigee|..]
  {
    TwoRules(r, q, q.apigee);
    TwoRules(q, r, q.apigee);
    assert Rewrite(q, q.apigee) == q.ewp;
    if q.ewp == r.ewp + q.apigee[|r.apigee|..] {
      forall path
        ensures FirstMatch([r, q], path) == FirstMatch([q, r], path)
      {
        TwoRules(r, q, path);
        TwoRules(q, r, path);
        PrefixTransitive(r.apigee, q.apigee, path);
        if q.apigee <= path {
          assert path[|r.apigee|..] == q.apigee[|r.apigee|..] + path[|q.apigee|..];
          assert Rewrite(r, path) == Rewrite(q, path);
        }
      }
    } else {
      assert FirstMatch([r, q], q.apigee) != FirstMatch([q, r], q.apigee);
    }
  }

  lemma TwoRules(r: Route, q: Route, path: string)
    ensures FirstMatch([r, q], path) ==
            if r.apigee <= path then Some(Rewrite(r, path))
            else if q.apigee <= path then Some(Rewrite(q, path))
            else None
  {
    assert [r, q][1..] == [q] && [q][1..] == [];
    assert FirstMatch([q], path) == if q.apigee <= path then Some(Rewrite(q, path)) else None;
  }
}
