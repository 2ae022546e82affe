/**
 * Placement recommendation: a three-way threshold rule on the hotness score
 * picks a per-tier sort key, the caller's endpoint list is stably sorted by
 * that key in place, and the first endpoint after sorting is recommended.
 */
module Placement {
  import opened Wrappers

  /** An endpoint entry; each field may be missing from the caller's dictionary. */
  datatype Endpoint = Endpoint(name: Option<string>, costPerGb: Option<real>, latencyMs: Option<real>)

  datatype Tier = Hot | Warm | Cold

  const HotAbove: real := 0.7
  const ColdBelow: real := 0.3
  /** The key a missing cost or latency counts as when it is minimised alone. */
  const MissingAlone: real := 9999.0
  /** The factor a missing cost or latency counts as in the warm product. */
  const MissingFactor: real := 1.0

  /** The tier of a hotness score: strictly above 0.7 is hot, strictly below 0.3 is cold, the rest (both bounds included) warm. */
  function TierOf(hotness: real): (t: Tier)
    ensures t == Hot <==> hotness > HotAbove
    ensures t == Cold <==> hotness < ColdBelow
    ensures t == Warm <==> ColdBelow <= hotness <= HotAbove
  {
    if hotness > HotAbove then Hot else if hotness < ColdBelow then Cold else Warm
  }

  function Reason(t: Tier): string {
    match t
    case Hot => "hot_data_low_latency"
    case Cold => "cold_data_low_cost"
    case Warm => "warm_data_balanced"
  }

  /** The sort key of each tier: latency when hot, cost when cold, cost times latency when warm. */
  function Key(t: Tier, e: Endpoint): real {
    match t
    case Hot => e.latencyMs.GetOr(MissingAlone)
    case Cold => e.costPerGb.GetOr(MissingAlone)
    case Warm => e.costPerGb.GetOr(MissingFactor) * e.latencyMs.GetOr(MissingFactor)
  }

  ghost predicate SortedBy(key: Endpoint -> real, s: seq<Endpoint>) {
    forall i, j :: 0 <= i < j < |s| ==> key(s[i]) <= key(s[j])
  }

  /** `x` inserted into `s` after every element whose key is not greater than its own. */
  function Insert(key: Endpoint -> real, x: Endpoint, s: seq<Endpoint>): (r: seq<Endpoint>)
    ensures |r| == |s| + 1
    ensures multiset(r) == multiset(s) + multiset{x}
  {
    if s == [] then [x]
    else if key(x) < key(s[0]) then [x] + s
    else
      assert s == [s[0]] + s[1..];
      [s[0]] + Insert(key, x, s[1..])
  }

  /** Inserting into a sorted list keeps it sorted. */
  lemma {:induction false} InsertSorted(key: Endpoint -> real, x: Endpoint, s: seq<Endpoint>)
    requires SortedBy(key, s)
    ensures SortedBy(key, Insert(key, x, s))
    decreases |s|
  {
    if s == [] {
    } else if key(x) < key(s[0]) {
      var r := [x] + s;
      assert Insert(key, x, s) == r;
      forall i, j | 0 <= i < j < |r| ensures key(r[i]) <= key(r[j]) {
        if i == 0 && j > 1 { assert key(s[0]) <= key(s[j - 1]); }
      }
    } else {
      var tail := Insert(key, x, s[1..]);
      var r := [s[0]] + tail;
      assert Insert(key, x, s) == r;
      InsertSorted(key, x, s[1..]);
      forall j | 0 < j < |r| ensures key(r[0]) <= key(r[j]) {
        assert r[j] in multiset(tail);
        if r[j] != x {
          assert r[j] in multiset(s[1..]);
          var k :| 0 <= k < |s[1..]| && s[1..][k] == r[j];
          assert key(s[0]) <= key(s[k + 1]);
        }
      }
    }
  }

  /** A stable sort of `xs` by `key` (Python's `list.sort(key=...)`). */
  function SortBy(key: Endpoint -> real, xs: seq<Endpoint>): (r: seq<Endpoint>)
    ensures SortedBy(key, r)
    ensures multiset(r) == multiset(xs)
    ensures |r| == |xs|
  {
    if xs == [] then []
    else
      assert xs == xs[..|xs| - 1] + [xs[|xs| - 1]];
      var sortedInit := SortBy(key, xs[..|xs| - 1]);
      InsertSorted(key, xs[|xs| - 1], sortedInit);
      Insert(key, xs[|xs| - 1], sortedInit)
  }

  /** The elements of `s` whose key is `v`, in order. */
  function WithKey(key: Endpoint -> real, s: seq<Endpoint>, v: real): seq<Endpoint> {
    if s == [] then []
    else (if key(s[0]) == v then [s[0]] else []) + WithKey(key, s[1..], v)
  }

  lemma {:induction false} WithKeyConcat(key: Endpoint -> real, a: seq<Endpoint>, b: seq<Endpoint>, v: real)
    ensures WithKey(key, a + b, v) == WithKey(key, a, v) + WithKey(key, b, v)
    decreases |a|
  {
    if a != [] {
      assert (a + b)[0] == a[0] && (a + b)[1..] == a[1..] + b;
      WithKeyConcat(key, a[1..], b, v);
    } else {
      assert a + b == b;
    }
  }

  lemma {:induction false} WithKeyNone(key: Endpoint -> real, s: seq<Endpoint>, v: real)
    requires forall i :: 0 <= i < |s| ==> key(s[i]) != v
    ensures WithKey(key, s, v) == []
    decreases |s|
  {
    if s != [] {
      WithKeyNone(key, s[1..], v);
    }
  }

  lemma {:induction false} InsertStable(key: Endpoint -> real, x: Endpoint, s: seq<Endpoint>, v: real)
    requires SortedBy(key, s)
    ensures WithKey(key, Insert(key, x, s), v) == WithKey(key, s, v) + (if key(x) == v then [x] else [])
    decreases |s|, 1
  {
    if s == [] {
      assert Insert(key, x, s) == [x];
    } else if key(x) < key(s[0]) {
      InsertBeforeStable(key, x, s, v);
    } else {
      InsertAfterStable(key, x, s, v);
    }
  }

  lemma {:induction false} InsertAfterStable(key: Endpoint -> real, x: Endpoint, s: seq<Endpoint>, v: real)
    requires SortedBy(key, s) && s != [] && !(key(x) < key(s[0]))
    ensures WithKey(key, Insert(key, x, s), v) == WithKey(key, s, v) + (if key(x) == v then [x] else [])
    decreases |s|, 0
  {
    assert s == [s[0]] + s[1..];
    var tail := Insert(key, x, s[1..]);
    var added := if key(x) == v then [x] else [];
    InsertStable(key, x, s[1..], v);
    WithKeyConcat(key, [s[0]], tail, v);
    WithKeyConcat(key, [s[0]], s[1..], v);
    calc {
      WithKey(key, Insert(key, x, s), v);
      WithKey(key, [s[0]] + tail, v);
      WithKey(key, [s[0]], v) + WithKey(key, tail, v);
      WithKey(key, [s[0]], v) + (WithKey(key, s[1..], v) + added);
      (WithKey(key, [s[0]], v) + WithKey(key, s[1..], v)) + added;
      WithKey(key, s, v) + added;
    }
  }

  lemma InsertBeforeStable(key: Endpoint -> real, x: Endpoint, s: seq<Endpoint>, v: real)
    requires SortedBy(key, s) && s != [] && key(x) < key(s[0])
    ensures WithKey(key, Insert(key, x, s), v) == WithKey(key, s, v) + (if key(x) == v then [x] else [])
  {
    if key(x) == v {
      forall i | 0 <= i < |s| ensures key(s[i]) != v {
        assert key(s[0]) <= key(s[i]);
      }
      WithKeyNone(key, s, v);
    }
    assert Insert(key, x, s) == [x] + s;
    WithKeyConcat(key, [x], s, v);
  }

  /** The sort is stable: the endpoints that share a key keep their input order. */
  lemma {:induction false} SortStable(key: Endpoint -> real, xs: seq<Endpoint>, v: real)
    ensures WithKey(key, SortBy(key, xs), v) == WithKey(key, xs, v)
    decreases |xs|
  {
    if xs != [] {
      var init, last := xs[..|xs| - 1], xs[|xs| - 1];
      var sortedInit := SortBy(key, init);
      assert xs == init + [last];
      var added := if key(last) == v then [last] else [];
      assert SortBy(key, xs) == Insert(key, last, sortedInit);
      SortStable(key, init, v);
      InsertStable(key, last, sortedInit, v);
      WithKeyConcat(key, init, [last], v);
      assert WithKey(key, [last], v) == added;
      calc {
        WithKey(key, SortBy(key, xs), v);
        WithKey(key, sortedInit, v) + added;
        WithKey(key, init, v) + WithKey(key, [last], v);
        WithKey(key, xs, v);
      }
    }
  }

  /** Endpoint `i` has the least key of `xs`, and every endpoint before it a greater one. */
  ghost predicate IsFirstMinimal(key: Endpoint -> real, xs: seq<Endpoint>, i: int) {
    && 0 <= i < |xs|
    && (forall j :: 0 <= j < |xs| ==> key(xs[i]) <= key(xs[j]))
    && (forall j :: 0 <= j < i ==> key(xs[i]) < key(xs[j]))
  }

  /** The first endpoint after sorting is the earliest endpoint of least key in input order. */
  lemma {:induction false} SortHead(key: Endpoint -> real, xs: seq<Endpoint>) returns (i: nat)
    requires xs != []
    ensures IsFirstMinimal(key, xs, i)
    ensures SortBy(key, xs)[0] == xs[i]
    decreases |xs|
  {
    var init, last := xs[..|xs| - 1], xs[|xs| - 1];
    assert xs == init + [last];
    if init == [] {
      i := 0;
    } else {
      var k := SortHead(key, init);
      var sorted := SortBy(key, init);
      if key(last) < key(sorted[0]) {
        i := |xs| - 1;
      } else {
        i := k;
      }
    }
  }

  /** What `recommend_placement` returns: nothing for no endpoints, a `KeyError` when the best has no name. */
  datatype Placement =
    | NoEndpoint
    | Chosen(endpoint: string, reason: string, hotness: real)
    | NameMissing

  /** The sort key of tier `t`, as a function value. */
  function KeyOf(t: Tier): Endpoint -> real {
    e => Key(t, e)
  }

  /** The recommendation for the endpoints `xs`, as the caller sees it. */
  function Recommend(hotness: real, xs: seq<Endpoint>): Placement {
    if xs == [] then NoEndpoint
    else
      var best := SortBy(KeyOf(TierOf(hotness)), xs)[0];
      if best.name.Some? then Chosen(best.name.value, Reason(TierOf(hotness)), hotness) else NameMissing
  }

  /**
   * The recommended endpoint has the least key of its tier: least latency
   * (missing: 9999) when hotness > 0.7, least cost (missing: 9999) when
   * hotness < 0.3, least cost times latency (missing: 1) otherwise; ties go
   * to the earliest endpoint; the reason names the tier; the hotness is echoed.
   */
  lemma RecommendChoice(hotness: real, xs: seq<Endpoint>) returns (i: nat)
    requires xs != []
    ensures IsFirstMinimal(KeyOf(TierOf(hotness)), xs, i)
    ensures Recommend(hotness, xs) ==
      if xs[i].name.Some? then Chosen(xs[i].name.value, Reason(TierOf(hotness)), hotness) else NameMissing
    ensures hotness > HotAbove ==> forall j :: 0 <= j < |xs| ==>
      xs[i].latencyMs.GetOr(MissingAlone) <= xs[j].latencyMs.GetOr(MissingAlone)
    ensures hotness < ColdBelow ==> forall j :: 0 <= j < |xs| ==>
      xs[i].costPerGb.GetOr(MissingAlone) <= xs[j].costPerGb.GetOr(MissingAlone)
    ensures ColdBelow <= hotness <= HotAbove ==> forall j :: 0 <= j < |xs| ==>
      xs[i].costPerGb.GetOr(MissingFactor) * xs[i].latencyMs.GetOr(MissingFactor)
        <= xs[j].costPerGb.GetOr(MissingFactor) * xs[j].latencyMs.GetOr(MissingFactor)
  {
    var t := TierOf(hotness);
    i := SortHead(KeyOf(t), xs);
    forall j | 0 <= j < |xs| ensures Key(t, xs[i]) <= Key(t, xs[j]) {
      assert KeyOf(t)(xs[i]) <= KeyOf(t)(xs[j]);
    }
  }

  /** Rewrite `a` with the stable sort of its contents, as Python's in-place `sort` does. */
  method SortInPlace(key: Endpoint -> real, a: array<Endpoint>)
    modifies a
    ensures a[..] == SortBy(key, old(a[..]))
  {
    var sorted := SortBy(key, a[..]);
    forall i | 0 <= i < a.Length {
      a[i] := sorted[i];
    }
  }

  /**
   * `recommend_placement`: the endpoint list is the caller's, and it is
   * sorted in place (unless empty) before the first endpoint is read.
   */
  method RecommendPlacement(hotness: real, endpoints: array<Endpoint>) returns (r: Placement)
    modifies endpoints
    ensures r == Recommend(hotness, old(endpoints[..]))
    ensures endpoints.Length == 0 ==> r == NoEndpoint
    ensures endpoints[..] == if endpoints.Length == 0 then old(endpoints[..])
                             else SortBy(KeyOf(TierOf(hotness)), old(endpoints[..]))
  {
    if endpoints.Length == 0 {
      return NoEndpoint;
    }
    var tier: Tier;
    var reason: string;
    if hotness > HotAbove {
      tier, reason := Hot, "hot_data_low_latency";
    } else if hotness < ColdBelow {
      tier, reason := Cold, "cold_data_low_cost";
    } else {
      tier, reason := Warm, "warm_data_balanced";
    }
    SortInPlace(KeyOf(tier), endpoints);
    var best := endpoints[0];
    if best.name.None? {
      return NameMissing;
    }
    r := Chosen(best.name.value, reason, hotness);
  }
}
