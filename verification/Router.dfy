/** Choosing the best item of a list by a score: -1 excludes, 0 is a fallback, larger is better. */
module Ranking {
  import opened Basics

  /** `choice` is the first item with the highest positive score, else the last item with score 0, else nothing. */
  ghost predicate IsAnswer<T>(items: seq<T>, score: T -> int, choice: Option<nat>) {
    match choice
    case None => forall i :: 0 <= i < |items| ==> score(items[i]) < 0
    case Some(k) =>
      && k < |items| && score(items[k]) >= 0
      && (forall i :: 0 <= i < |items| ==> score(items[i]) <= score(items[k]))
      && (score(items[k]) > 0 ==> forall i :: 0 <= i < k ==> score(items[i]) < score(items[k]))
      && (score(items[k]) == 0 ==> forall i :: k < i < |items| ==> score(items[i]) < 0)
  }

  lemma AnswerIsUnique<T>(items: seq<T>, score: T -> int, a: Option<nat>, b: Option<nat>)
    requires IsAnswer(items, score, a) && IsAnswer(items, score, b)
    ensures a == b
  {
    if a.Some? && b.Some? {
      assert score(items[a.value]) == score(items[b.value]);
    }
  }

  /** The choice after one more item. */
  ghost function Extend<T>(items: seq<T>, score: T -> int, choice: Option<nat>, item: T): Option<nat>
    requires IsAnswer(items, score, choice)
  {
    var best := if choice.Some? then score(items[choice.value]) else -1;
    if score(item) >= 0 && (score(item) > best || best == 0 == score(item)) then Some(|items|) else choice
  }

  lemma ExtendIsAnswer<T>(items: seq<T>, score: T -> int, choice: Option<nat>, item: T)
    requires IsAnswer(items, score, choice)
    ensures IsAnswer(items + [item], score, Extend(items, score, choice, item))
  {
  }

  ghost function Choose<T>(items: seq<T>, score: T -> int): (choice: Option<nat>)
    ensures IsAnswer(items, score, choice)
  {
    if items == [] then None
    else
      var init, last := items[..|items| - 1], items[|items| - 1];
      var choice := Choose(init, score);
      ExtendIsAnswer(init, score, choice, last);
      assert items == init + [last];
      Extend(init, score, choice, last)
  }

  ghost function Chosen<T>(items: seq<T>, score: T -> int): Option<T> {
    var choice := Choose(items, score);
    if choice.None? then None else Some(items[choice.value])
  }

  ghost predicate Top<T(!new)>(items: seq<T>, score: T -> int, r: T) {
    r in items && score(r) >= 0 && forall x :: x in items ==> score(x) <= score(r)
  }

  /** Every permutation gives the same answer exactly when no two different items tie for the best. */
  lemma OrderIrrelevantExactlyWithoutTies<T(!new)>(items: seq<T>, score: T -> int)
    ensures (forall p :: multiset(p) == multiset(items) ==> Chosen(p, score) == Chosen(items, score))
       <==> (forall r, s :: Top(items, score, r) && Top(items, score, s) ==> r == s)
  {
    if forall r, s :: Top(items, score, r) && Top(items, score, s) ==> r == s {
      forall p | multiset(p) == multiset(items)
        ensures Chosen(p, score) == Chosen(items, score)
      {
        SameItems(p, items);
        ChosenIsTop(p, score);
        ChosenIsTop(items, score);
        if Chosen(p, score).Some? {
          assert Top(items, score, Chosen(p, score).value);
        }
      }
    } else {
      var r, s :| Top(items, score, r) && Top(items, score, s) && r != s;
      var p := MoveToWin(items, score, r);
      var p' := MoveToWin(items, score, s);
      assert Chosen(p, score) != Chosen(p', score);
    }
  }

  lemma SameItems<T>(p: seq<T>, items: seq<T>)
    requires multiset(p) == multiset(items)
    ensures forall x :: x in p <==> x in items
  {
    forall x ensures x in p <==> x in items {
      assert x in p <==> x in multiset(p);
      assert x in items <==> x in multiset(items);
    }
  }

  lemma ChosenIsTop<T(!new)>(items: seq<T>, score: T -> int)
    ensures match Chosen(items, score)
            case Some(r) => Top(items, score, r)
            case None => forall x :: x in items ==> score(x) < 0
  {
  }

  lemma FirstWins<T(!new)>(others: seq<T>, score: T -> int, r: T)
    requires score(r) > 0 && forall x :: x in others ==> score(x) <= score(r)
    ensures Chosen([r] + others, score) == Some(r)
  {
    var p := [r] + others;
    AnswerIsUnique(p, score, Choose(p, score), Some(0));
  }

  lemma LastWins<T(!new)>(others: seq<T>, score: T -> int, r: T)
    requires score(r) == 0 && forall x :: x in others ==> score(x) <= 0
    ensures Chosen(others + [r], score) == Some(r)
  {
    var p := others + [r];
    AnswerIsUnique(p, score, Choose(p, score), Some(|others|));
  }

  /** Moving a best item to the front (or, for a fallback, to the end) makes it the answer. */
  lemma MoveToWin<T(!new)>(items: seq<T>, score: T -> int, r: T) returns (p: seq<T>)
    requires Top(items, score, r)
    ensures multiset(p) == multiset(items) && Chosen(p, score) == Some(r)
  {
    var k :| 0 <= k < |items| && items[k] == r;
    var others := items[..k] + items[k + 1..];
    assert items == items[..k] + [r] + items[k + 1..];
    assert forall x :: x in others ==> x in items;
    assert multiset(items) == multiset(items[..k]) + multiset{r} + multiset(items[k + 1..]);
    if score(r) > 0 {
      p := [r] + others;
      FirstWins(others, score, r);
    } else {
      p := others + [r];
      LastWins(others, score, r);
    }
  }
}

/** The HTTP virtual-host router: longest-location routing over a list of routes. */
module Router {
  import opened Basics
  import opened Ranking

  datatype HttpRoute = HttpRoute(
    serviceName: Bytes,
    customDomains: seq<Bytes>,
    subdomain: Option<Bytes>,
    locations: seq<Bytes>,
    rest: Bytes)                // the header and credential settings, which routing does not read

  /** What a request is matched on. */
  datatype Query = Query(subdomainHost: Option<Bytes>, host: Bytes, path: Bytes)

  function HostWithoutPort(host: Bytes): (h: Bytes)
    ensures h <= host && COLON !in h
    ensures h != host ==> host[|h|] == COLON
  {
    if host == [] || host[0] == COLON then [] else [host[0]] + HostWithoutPort(host[1..])
  }

  predicate HostMatches(r: HttpRoute, q: Query) {
    var h := HostWithoutPort(q.host);
    || (exists d :: d in r.customDomains && EqIgnoreAsciiCase(d, h))
    || (r.subdomain.Some? && q.subdomainHost.Some?
        && EqIgnoreAsciiCase(r.subdomain.value + [DOT] + q.subdomainHost.value, h))
  }

  // ---------------------------------------------------------------- specification

  function MatchLength(location: Bytes, path: Bytes): nat {
    if location <= path then |location| else 0
  }

  function LongestMatch(locations: seq<Bytes>, path: Bytes): (n: nat)
    ensures forall l :: l in locations && l <= path ==> |l| <= n
    ensures n > 0 ==> exists l :: l in locations && l <= path && |l| == n
  {
    if locations == [] then 0
    else
      var last := |locations| - 1;
      var n, m := LongestMatch(locations[..last], path), MatchLength(locations[last], path);
      assert locations == locations[..last] + [locations[last]];
      if m > n then m else n
  }

  /** How well a route fits: -1 not at all, 0 as a catch-all, otherwise the length of its longest matching location. */
  function Score(r: HttpRoute, q: Query): (s: int)
    ensures s >= -1
  {
    if !HostMatches(r, q) then -1
    else if r.locations == [] then 0
    else var n := LongestMatch(r.locations, q.path); if n == 0 then -1 else n
  }

  ghost function ScoreFor(q: Query): HttpRoute -> int {
    (r: HttpRoute) => Score(r, q)
  }

  // ---------------------------------------------------------------- what the scores mean

  /** `h` is `host` up to its first colon. */
  predicate HostPart(host: Bytes, h: Bytes) {
    h <= host && 0x3A !in h && (h == host || host[|h|] == 0x3A)
  }

  /** The request's host, without its port and ignoring ASCII case, is one of the route's domains or its subdomain, a
      dot, and the server's subdomain host. */
  ghost predicate Serves(r: HttpRoute, q: Query) {
    exists h :: HostPart(q.host, h) &&
      ((exists d :: d in r.customDomains && SameText(d, h))
       || (r.subdomain.Some? && q.subdomainHost.Some?
           && SameText(r.subdomain.value + [0x2E] + q.subdomainHost.value, h)))
  }

  /** `n` is the length of the route's longest non-empty location that is a prefix of the path. */
  ghost predicate Longest(r: HttpRoute, q: Query, n: int) {
    && n > 0 && (exists l :: l in r.locations && l <= q.path && |l| == n)
    && forall l :: l in r.locations && l <= q.path ==> |l| <= n
  }

  /** The route has locations, and none but the empty one is a prefix of the path. */
  ghost predicate Misses(r: HttpRoute, q: Query) {
    r.locations != [] && forall l :: l in r.locations && l <= q.path ==> l == []
  }

  lemma {:induction false} HostPartUnique(host: Bytes, h: Bytes)
    requires HostPart(host, h)
    ensures h == HostWithoutPort(host)
  {
    if host == [] || host[0] == 0x3A {
    } else {
      assert h != [] && h[0] == host[0];
      assert HostPart(host[1..], h[1..]);
      HostPartUnique(host[1..], h[1..]);
    }
  }

  lemma MatchingHostIsServed(r: HttpRoute, q: Query)
    ensures HostMatches(r, q) <==> Serves(r, q)
  {
    var h := HostWithoutPort(q.host);
    assert HostPart(q.host, h);
    forall d ensures EqIgnoreAsciiCase(d, h) <==> SameText(d, h) {
      IgnoringCaseIsSameText(d, h);
    }
    forall h' | HostPart(q.host, h') ensures h' == h {
      HostPartUnique(q.host, h');
    }
  }

  lemma ScoreMeaning(r: HttpRoute, q: Query)
    ensures Score(r, q) == -1 <==> !Serves(r, q) || Misses(r, q)
    ensures Score(r, q) == 0 <==> Serves(r, q) && r.locations == []
    ensures forall n :: n > 0 ==> (Score(r, q) == n <==> Serves(r, q) && Longest(r, q, n))
  {
    MatchingHostIsServed(r, q);
    var n := LongestMatch(r.locations, q.path);
    assert n > 0 ==> Longest(r, q, n);
    assert n == 0 && r.locations != [] ==> Misses(r, q);
  }

  /** The right answer to a request, in terms of hosts and locations alone: the first of the serving routes with the
      longest matching location; if no serving route has one, the last that has no locations at all; otherwise none. */
  ghost predicate RightAnswer(routes: seq<HttpRoute>, q: Query, choice: Option<nat>) {
    match choice
    case None => forall i :: 0 <= i < |routes| && Serves(routes[i], q) ==> Misses(routes[i], q)
    case Some(k) =>
      && k < |routes| && Serves(routes[k], q)
      && (|| (exists n :: Longest(routes[k], q, n) && IsFirstLongest(routes, q, k, n))
          || (routes[k].locations == [] && IsLastFallback(routes, q, k)))
  }

  /** No serving route has a longer matching location, and no earlier one has one as long. */
  ghost predicate IsFirstLongest(routes: seq<HttpRoute>, q: Query, k: nat, n: int) {
    forall i :: 0 <= i < |routes| && Serves(routes[i], q) ==>
      forall l :: l in routes[i].locations && l <= q.path ==> |l| <= n && (i < k ==> |l| < n)
  }

  /** No serving route has a matching location but the empty one, and no later one is without locations. */
  ghost predicate IsLastFallback(routes: seq<HttpRoute>, q: Query, k: nat) {
    forall i :: 0 <= i < |routes| && Serves(routes[i], q) ==>
      (routes[i].locations == [] ==> i <= k) && forall l :: l in routes[i].locations && l <= q.path ==> l == []
  }

  /** There is one right answer. */
  lemma RightAnswerUnique(routes: seq<HttpRoute>, q: Query, a: Option<nat>, b: Option<nat>)
    requires RightAnswer(routes, q, a) && RightAnswer(routes, q, b)
    ensures a == b
  {
    if a.Some? && b.Some? {
      var j, k := a.value, b.value;
      assert Serves(routes[j], q) && Serves(routes[k], q);
    }
  }

  lemma AnswerIsRight(routes: seq<HttpRoute>, q: Query, choice: Option<nat>)
    requires IsAnswer(routes, ScoreFor(q), choice)
    ensures RightAnswer(routes, q, choice)
  {
    forall i | 0 <= i < |routes|
      ensures Serves(routes[i], q) ==>
        && (Score(routes[i], q) < 0 ==> Misses(routes[i], q))
        && (Score(routes[i], q) == 0 ==> routes[i].locations == [])
        && (Score(routes[i], q) > 0 ==> Longest(routes[i], q, Score(routes[i], q)))
      ensures !Serves(routes[i], q) ==> Score(routes[i], q) < 0
    {
      ScoreMeaning(routes[i], q);
    }
    if choice.Some? {
      var n := Score(routes[choice.value], q);
      assert n > 0 ==> IsFirstLongest(routes, q, choice.value, n);
      assert n == 0 ==> IsLastFallback(routes, q, choice.value);
    }
  }

  // ---------------------------------------------------------------- implementation

  class VhostRouter {
    var routes: seq<HttpRoute>
    const subdomainHost: Option<Bytes>

    constructor (subdomainHost: Option<Bytes>)
      ensures routes == [] && this.subdomainHost == subdomainHost
    {
      routes := [];
      this.subdomainHost := subdomainHost;
    }

    method AddRoute(route: HttpRoute)
      modifies this`routes
      ensures routes == old(routes) + [route]
    {
      routes := routes + [route];
    }

    method RemoveRoute(serviceName: Bytes)
      modifies this`routes
      ensures routes == WithoutService(old(routes), serviceName)
    {
      var kept := [];
      for k := 0 to |routes|
        invariant routes == old(routes)
        invariant kept == WithoutService(routes[..k], serviceName)
      {
        WithoutServiceConcat(routes[..k], [routes[k]], serviceName);
        assert routes[..k + 1] == routes[..k] + [routes[k]];
        if routes[k].serviceName != serviceName {
          kept := kept + [routes[k]];
        }
      }
      assert routes[..|routes|] == routes;
      routes := kept;
    }

    /** The answer is the first route with the longest non-empty matching location among the routes for the host, else
        the last catch-all route for the host, else nothing. */
    method MatchRoute(host: Bytes, path: Bytes) returns (choice: Option<nat>)
      ensures IsAnswer(routes, ScoreFor(Query(subdomainHost, host, path)), choice)
      ensures RightAnswer(routes, Query(subdomainHost, host, path), choice)
    {
      var q := Query(subdomainHost, host, path);
      ghost var score := ScoreFor(q);
      choice := None;
      var bestLen: nat := 0;
      for k := 0 to |routes|
        invariant IsAnswer(routes[..k], score, choice)
        invariant choice.Some? ==> bestLen == score(routes[choice.value])
        invariant choice.None? ==> bestLen == 0
      {
        ExtendIsAnswer(routes[..k], score, choice, routes[k]);
        assert routes[..k + 1] == routes[..k] + [routes[k]];
        var better, n := Consider(routes[k], q, bestLen);
        if better {
          choice, bestLen := Some(k), n;
        }
      }
      assert routes[..|routes|] == routes;
      AnswerIsRight(routes, q, choice);
    }
  }

  /** The loop body for one route: does it replace the best match so far, and with which location length? */
  method Consider(route: HttpRoute, q: Query, bestLen: nat) returns (better: bool, n: nat)
    ensures better <==> Score(route, q) > bestLen || Score(route, q) == bestLen == 0
    ensures better ==> n == Score(route, q)
  {
    better, n := false, bestLen;
    if HostMatches(route, q) {
      if route.locations == [] {
        better, n := bestLen == 0, 0;
      } else {
        n := LongestLocation(route.locations, q.path, bestLen);
        better := n > bestLen;
      }
    }
  }

  /** The inner loop over a route's locations: the best length so far, improved by any longer matching location. */
  method LongestLocation(locations: seq<Bytes>, path: Bytes, bestLen: nat) returns (best: nat)
    ensures best == if LongestMatch(locations, path) > bestLen then LongestMatch(locations, path) else bestLen
  {
    best := bestLen;
    for j := 0 to |locations|
      invariant var n := LongestMatch(locations[..j], path); best == if n > bestLen then n else bestLen
    {
      assert locations[..j + 1][..j] == locations[..j];
      if locations[j] <= path && |locations[j]| > best {
        best := |locations[j]|;
      }
    }
    assert locations[..|locations|] == locations;
  }

  /** `retain` on the service name. */
  function WithoutService(routes: seq<HttpRoute>, name: Bytes): seq<HttpRoute> {
    if routes == [] then []
    else if routes[0].serviceName == name then WithoutService(routes[1..], name)
    else [routes[0]] + WithoutService(routes[1..], name)
  }

  lemma {:induction false} WithoutServiceConcat(a: seq<HttpRoute>, b: seq<HttpRoute>, name: Bytes)
    ensures WithoutService(a + b, name) == WithoutService(a, name) + WithoutService(b, name)
  {
    if a == [] {
      assert a + b == b;
    } else {
      assert (a + b)[0] == a[0] && (a + b)[1..] == a[1..] + b;
      WithoutServiceConcat(a[1..], b, name);
      var u, v := WithoutService(a[1..], name), WithoutService(b, name);
      assert [a[0]] + (u + v) == ([a[0]] + u) + v;
    }
  }

  /** The order in which routes were registered matters for a request exactly when two different routes tie for it. */
  lemma RouteOrderIrrelevantExactlyWithoutTies(routes: seq<HttpRoute>, q: Query)
    ensures (forall p :: multiset(p) == multiset(routes) ==> Chosen(p, ScoreFor(q)) == Chosen(routes, ScoreFor(q)))
       <==> (forall r, s :: Top(routes, ScoreFor(q), r) && Top(routes, ScoreFor(q), s) ==> r == s)
  {
    OrderIrrelevantExactlyWithoutTies(routes, ScoreFor(q));
  }
}
