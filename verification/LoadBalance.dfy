/** Load-balancing groups: round-robin selection and group registration. */
module LoadBalance {
  import opened Basics

  /** `usize` on a 64-bit target; the selection counter wraps. */
  const WORD: nat := 0x1_0000_0000_0000_0000

  datatype GroupView = GroupView(key: Option<Bytes>, members: seq<Bytes>, counter: nat)

  function WithoutMember(ms: seq<Bytes>, m: Bytes): (r: seq<Bytes>)
    ensures forall x :: x in r <==> x in ms && x != m
  {
    if ms == [] then []
    else
      assert ms == [ms[0]] + ms[1..];
      if ms[0] == m then WithoutMember(ms[1..], m) else [ms[0]] + WithoutMember(ms[1..], m)
  }

  /** A new member goes to the end of the list; one that is there already changes nothing. */
  function WithMember(ms: seq<Bytes>, m: Bytes): (r: seq<Bytes>)
    ensures ms <= r && |r| <= |ms| + 1
    ensures forall x :: x in r <==> x in ms || x == m
    ensures m in ms ==> r == ms
  {
    if m in ms then ms else ms + [m]
  }

  /** The remaining members keep their order. */
  lemma {:induction false} WithoutMemberConcat(a: seq<Bytes>, b: seq<Bytes>, m: Bytes)
    ensures WithoutMember(a + b, m) == WithoutMember(a, m) + WithoutMember(b, m)
    ensures WithoutMember([m], m) == [] && (m !in a ==> WithoutMember(a, m) == a)
  {
    if a == [] {
      assert a + b == b;
    } else {
      assert (a + b)[1..] == a[1..] + b && a == [a[0]] + a[1..];
      WithoutMemberConcat(a[1..], b, m);
    }
  }

  lemma {:induction false} WithoutMemberDistinct(ms: seq<Bytes>, m: Bytes)
    requires Distinct(ms)
    ensures Distinct(WithoutMember(ms, m))
  {
    if ms == [] {
    } else {
      WithoutMemberDistinct(ms[1..], m);
      assert ms[0] !in ms[1..];
    }
  }

  // ---------------------------------------------------------------- a group

  /** The counter value after reaching `c`. */
  function Wrapped(c: nat): nat { if c >= WORD then c - WORD else c }

  function Selected(v: GroupView): Option<Bytes> {
    if v.members == [] then None else Some(v.members[v.counter % |v.members|])
  }

  function AfterSelection(v: GroupView): GroupView {
    if v.members == [] then v else v.(counter := Wrapped(v.counter + 1))
  }

  /** `n` consecutive selections from an unchanged group. */
  function Selections(v: GroupView, n: nat): seq<Bytes>
    requires v.members != []
    decreases n
  {
    if n == 0 then [] else [Selected(v).value] + Selections(AfterSelection(v), n - 1)
  }

  class LoadBalanceGroup {
    const key: Option<Bytes>
    var members: seq<Bytes>
    var counter: nat

    constructor (key: Option<Bytes>)
      ensures View() == GroupView(key, [], 0)
    {
      this.key, members, counter := key, [], 0;
    }

    ghost function View(): GroupView
      reads this
    {
      GroupView(key, members, counter)
    }

    method AddMember(service: Bytes)
      modifies this
      ensures View() == old(View()).(members := WithMember(old(members), service))
    {
      if service !in members {
        members := members + [service];
      }
    }

    method RemoveMember(service: Bytes)
      modifies this
      ensures View() == old(View()).(members := WithoutMember(old(members), service))
    {
      members := WithoutMember(members, service);
    }

    method NextMember() returns (r: Option<Bytes>)
      requires counter < WORD
      modifies this
      ensures r == Selected(old(View())) && View() == AfterSelection(old(View())) && counter < WORD
    {
      if members == [] {
        return None;
      }
      var idx := counter % |members|;
      counter := (counter + 1) % WORD;
      r := Some(members[idx]);
    }
  }

  // ---------------------------------------------------------------- fairness

  /** How often member `j` of `m` is selected in `n` selections from counter value `c`. */
  ghost function Hits(c: nat, n: nat, m: nat, j: nat): nat
    requires m > 0
    decreases n
  {
    if n == 0 then 0 else (if c % m == j then 1 else 0) + Hits(Wrapped(c + 1), n - 1, m, j)
  }

  function Succ(r: nat, m: nat): nat { if r + 1 == m then 0 else r + 1 }

  /** The same count for an index that goes round the members without a counter. */
  ghost function Laps(r: nat, n: nat, m: nat, j: nat): nat
    decreases n
  {
    if n == 0 then 0 else (if r == j then 1 else 0) + Laps(Succ(r, m), n - 1, m, j)
  }

  ghost predicate Fair(hits: nat, n: nat, m: nat)
    requires m > 0
  {
    n / m <= hits <= n / m + if n % m == 0 then 0 else 1
  }

  lemma MulAtLeast(a: nat, m: nat)
    requires a >= 1
    ensures a * m >= m
  {
    assert a * m == (a - 1) * m + m;
  }

  lemma DivModUnique(x: nat, m: nat, q: nat, r: nat)
    requires m > 0 && x == q * m + r && r < m
    ensures x / m == q && x % m == r
  {
    var q', r' := x / m, x % m;
    assert x == q' * m + r';
    if q' > q {
      assert (q' - q) * m == q' * m - q * m;
      MulAtLeast(q' - q, m);
    } else if q' < q {
      assert (q - q') * m == q * m - q' * m;
      MulAtLeast(q - q', m);
    }
  }

  lemma SuccIsNextIndex(c: nat, m: nat)
    requires m > 0
    ensures (c + 1) % m == Succ(c % m, m)
  {
    var q, r := c / m, c % m;
    if r + 1 == m {
      assert c + 1 == (q + 1) * m + 0;
      DivModUnique(c + 1, m, q + 1, 0);
    } else {
      DivModUnique(c + 1, m, q, r + 1);
    }
  }

  /** In one lap every member comes up exactly once. */
  lemma {:induction false} OneLap(r: nat, n: nat, m: nat, j: nat)
    requires r < m && j < m && n <= m
    ensures Laps(r, n, m, j) == if (if j >= r then j - r else j - r + m) < n then 1 else 0
    decreases n
  {
    if n == 0 {
    } else {
      OneLap(Succ(r, m), n - 1, m, j);
    }
  }

  lemma {:induction false} LapsSplit(r: nat, a: nat, b: nat, m: nat, j: nat)
    requires r < m && a <= m
    ensures Laps(r, a + b, m, j) == Laps(r, a, m, j) + Laps(if r + a < m then r + a else r + a - m, b, m, j)
    decreases a
  {
    if a == 0 {
    } else {
      LapsSplit(Succ(r, m), a - 1, b, m, j);
    }
  }

  lemma FairStep(hits: nat, n: nat, m: nat)
    requires 0 < m <= n && Fair(hits, n - m, m)
    ensures Fair(hits + 1, n, m)
  {
    var q, s := (n - m) / m, (n - m) % m;
    assert n == (q + 1) * m + s by {
      assert n - m == q * m + s;
    }
    DivModUnique(n, m, q + 1, s);
  }

  lemma FairPart(hits: nat, n: nat, m: nat)
    requires n < m && hits <= 1 && (n == 0 ==> hits == 0)
    ensures Fair(hits, n, m)
  {
    DivModUnique(n, m, 0, n);
  }

  lemma {:induction false} LapsFair(r: nat, n: nat, m: nat, j: nat)
    requires r < m && j < m
    ensures Fair(Laps(r, n, m, j), n, m)
    decreases n
  {
    if n < m {
      OneLap(r, n, m, j);
      FairPart(Laps(r, n, m, j), n, m);
    } else {
      OneLap(r, m, m, j);
      LapsSplit(r, m, n - m, m, j);
      LapsFair(r, n - m, m, j);
      FairStep(Laps(r, n - m, m, j), n, m);
    }
  }

  lemma {:induction false} HitsAreLaps(c: nat, n: nat, m: nat, j: nat)
    requires m > 0 && c < WORD && (c + n <= WORD || WORD % m == 0)
    ensures Hits(c, n, m, j) == Laps(c % m, n, m, j)
    decreases n
  {
    if n == 0 {
    } else {
      SuccIsNextIndex(c, m);
      if c + 1 < WORD {
        HitsAreLaps(c + 1, n - 1, m, j);
      } else if n > 1 {
        HitsAreLaps(0, n - 1, m, j);
        DivModUnique(0, m, 0, 0);
      }
    }
  }

  /** Selections go through the members in order and round again, starting where the counter stands. */
  lemma {:induction false} SelectionsInOrder(v: GroupView, n: nat, i: nat)
    requires v.members != [] && v.counter < WORD && v.counter + n <= WORD && i < n
    ensures |Selections(v, n)| == n && Selections(v, n)[i] == v.members[(v.counter + i) % |v.members|]
    decreases n
  {
    if n == 1 {
    } else {
      SelectionsInOrder(AfterSelection(v), n - 1, if i > 0 then i - 1 else 0);
    }
  }

  lemma CountHead(x: Bytes, rest: seq<Bytes>, y: Bytes)
    ensures multiset([x] + rest)[y] == (if x == y then 1 else 0) + multiset(rest)[y]
  {
  }

  /** `x` is member `j` and no other. */
  ghost predicate OnlyAt(members: seq<Bytes>, j: nat, x: Bytes) {
    j < |members| && forall k :: 0 <= k < |members| ==> (members[k] == x <==> k == j)
  }

  lemma SelectedIs(v: GroupView, j: nat, x: Bytes)
    requires OnlyAt(v.members, j, x)
    ensures Selected(v).Some? && (Selected(v).value == x <==> v.counter % |v.members| == j)
  {
  }

  lemma FirstSelectionCounted(v: GroupView, n: nat, j: nat, x: Bytes)
    requires OnlyAt(v.members, j, x) && n > 0
    ensures multiset(Selections(v, n))[x]
         == (if v.counter % |v.members| == j then 1 else 0) + multiset(Selections(AfterSelection(v), n - 1))[x]
  {
    SelectedIs(v, j, x);
    CountHead(Selected(v).value, Selections(AfterSelection(v), n - 1), x);
  }

  lemma {:induction false} SelectionsCountedOf(v: GroupView, n: nat, j: nat, x: Bytes)
    requires OnlyAt(v.members, j, x)
    ensures multiset(Selections(v, n))[x] == Hits(v.counter, n, |v.members|, j)
    decreases n
  {
    if n == 0 {
    } else {
      FirstSelectionCounted(v, n, j, x);
      SelectionsCountedOf(AfterSelection(v), n - 1, j, x);
    }
  }

  lemma SelectionsCounted(v: GroupView, n: nat, j: nat)
    requires j < |v.members| && Distinct(v.members)
    ensures multiset(Selections(v, n))[v.members[j]] == Hits(v.counter, n, |v.members|, j)
  {
    SelectionsCountedOf(v, n, j, v.members[j]);
  }

  /** Round-robin fairness: over any selections that do not run past the counter's wrap, each of the `m` members is
      chosen the rounded-down or rounded-up average number of times. */
  lemma RoundRobinFair(v: GroupView, n: nat, j: nat)
    requires j < |v.members| && Distinct(v.members)
    requires v.counter < 0x1_0000_0000_0000_0000 && v.counter + n <= 0x1_0000_0000_0000_0000
    ensures Fair(multiset(Selections(v, n))[v.members[j]], n, |v.members|)
  {
    var m := |v.members|;
    SelectionsCounted(v, n, j);
    HitsAreLaps(v.counter, n, m, j);
    LapsFair(v.counter % m, n, m, j);
  }

  lemma {:induction false} HitsSplit(c: nat, a: nat, b: nat, m: nat, j: nat)
    requires m > 0 && c < WORD && a <= WORD
    ensures Hits(c, a + b, m, j) == Hits(c, a, m, j) + Hits(Wrapped(c + a), b, m, j)
    decreases a
  {
    if a == 0 {
    } else {
      HitsSplit(Wrapped(c + 1), a - 1, b, m, j);
    }
  }

  /** Across the wrap the selection is fair exactly when the number of members divides the counter's range. */
  lemma FairAcrossWrapExactly(m: nat)
    requires m > 0
    ensures (forall c, n, j :: 0 <= c < WORD && 0 <= n && 0 <= j < m ==> Fair(Hits(c, n, m, j), n, m))
       <==> 0x1_0000_0000_0000_0000 % m == 0
  {
    if WORD % m == 0 {
      forall c, n, j | 0 <= c < WORD && 0 <= n && 0 <= j < m
        ensures Fair(Hits(c, n, m, j), n, m)
      {
        HitsAreLaps(c, n, m, j);
        LapsFair(c % m, n, m, j);
      }
    } else {
      var r := WORD % m;
      var c := WORD - r;
      DivModUnique(c, m, WORD / m, 0);
      HitsSplit(c, r, 1, m, 0);
      HitsAreLaps(c, r, m, 0);
      OneLap(0, r, m, 0);
      assert Hits(0, 1, m, 0) == 1 by {
        DivModUnique(0, m, 0, 0);
        assert Hits(1, 0, m, 0) == 0;
      }
      assert Hits(c, r + 1, m, 0) == 2;
      if r + 1 == m {
        DivModUnique(r + 1, m, 1, 0);
      } else {
        DivModUnique(r + 1, m, 0, r + 1);
      }
      assert !Fair(Hits(c, r + 1, m, 0), r + 1, m);
    }
  }

  // ---------------------------------------------------------------- registration

  type Groups = map<Bytes, GroupView>

  /** A registration is accepted when the group does not exist yet or its key is the one presented. */
  predicate Accepts(gs: Groups, group: Bytes, key: Option<Bytes>) {
    group in gs ==> gs[group].key == key
  }

  function Registered(gs: Groups, group: Bytes, key: Option<Bytes>, service: Bytes): Groups {
    if group !in gs then gs[group := GroupView(key, [service], 0)]
    else if gs[group].key != key then gs
    else gs[group := gs[group].(members := WithMember(gs[group].members, service))]
  }

  function Unregistered(gs: Groups, group: Bytes, service: Bytes): Groups {
    if group !in gs then gs
    else
      var left := WithoutMember(gs[group].members, service);
      if left == [] then gs - {group} else gs[group := gs[group].(members := left)]
  }

  class LoadBalanceManager {
    var groups: map<Bytes, LoadBalanceGroup>

    ghost predicate Valid()
      reads this
    {
      forall g, h :: g in groups && h in groups && groups[g] == groups[h] ==> g == h
    }

    ghost function View(): Groups
      reads this, groups.Values
    {
      map g | g in groups :: groups[g].View()
    }

    constructor ()
      ensures Valid() && View() == map[]
    {
      groups := map[];
    }

    method Register(group: Bytes, key: Option<Bytes>, service: Bytes) returns (ok: bool)
      requires Valid()
      modifies this, groups.Values
      ensures Valid()
      ensures ok <==> Accepts(old(View()), group, key)
      ensures View() == Registered(old(View()), group, key, service)
    {
      if group in groups {
        if groups[group].key != key {
          return false;
        }
        groups[group].AddMember(service);
      } else {
        var g := new LoadBalanceGroup(key);
        g.AddMember(service);
        assert g.View() == GroupView(key, [service], 0);
        groups := groups[group := g];
      }
      ok := true;
    }

    method Unregister(group: Bytes, service: Bytes)
      requires Valid()
      modifies this, groups.Values
      ensures Valid()
      ensures View() == Unregistered(old(View()), group, service)
    {
      if group in groups {
        groups[group].RemoveMember(service);
        if groups[group].members == [] {
          groups := groups - {group};
        }
      }
    }
  }

  datatype Op = Register(group: Bytes, key: Option<Bytes>, service: Bytes) | Unregister(group: Bytes, service: Bytes)

  function Apply(gs: Groups, op: Op): Groups {
    match op
    case Register(g, k, s) => Registered(gs, g, k, s)
    case Unregister(g, s) => Unregistered(gs, g, s)
  }

  function ApplyAll(gs: Groups, ops: seq<Op>): Groups
    decreases |ops|
  {
    if ops == [] then gs else ApplyAll(Apply(gs, ops[0]), ops[1..])
  }

  /** An accepted registration makes the service a member of its group, with everyone who was there; one with the wrong
      key changes nothing; no registration touches another group. */
  lemma RegistrationEffect(gs: Groups, group: Bytes, key: Option<Bytes>, service: Bytes)
    ensures Accepts(gs, group, key) <==> group !in gs || gs[group].key == key
    ensures var r := Registered(gs, group, key, service);
      && (forall g :: g != group ==> (g in r <==> g in gs) && (g in gs ==> r[g] == gs[g]))
      && (group in gs && gs[group].key != key ==> r == gs)
      && (group in gs && gs[group].key == key ==>
            && group in r && r[group].key == key && r[group].counter == gs[group].counter
            && forall m :: m in r[group].members <==> m in gs[group].members || m == service)
      && (group !in gs ==>
            group in r && r[group].key == key && r[group].counter == 0 && r[group].members == [service])
  {
  }

  /** Unregistering takes the service out of its group, and the group away exactly when nobody else was in it. */
  lemma UnregistrationEffect(gs: Groups, group: Bytes, service: Bytes)
    ensures var r := Unregistered(gs, group, service);
      && (forall g :: g != group ==> (g in r <==> g in gs) && (g in gs ==> r[g] == gs[g]))
      && (group in r <==> group in gs && exists m :: m in gs[group].members && m != service)
      && (group in r ==> r[group].key == gs[group].key && r[group].counter == gs[group].counter)
      && (group in r ==> forall m :: m in r[group].members <==> m in gs[group].members && m != service)
  {
    if group in gs {
      var left := WithoutMember(gs[group].members, service);
      assert left != [] ==> left[0] in left;
    }
  }

  /** No group is empty and no member is listed twice. */
  ghost predicate Kept(gs: Groups) {
    forall g :: g in gs ==> gs[g].members != [] && Distinct(gs[g].members)
  }

  lemma {:induction false} RunsKeepGroups(gs: Groups, ops: seq<Op>)
    requires Kept(gs)
    ensures Kept(ApplyAll(gs, ops))
    decreases |ops|
  {
    if ops == [] {
    } else {
      if ops[0].Unregister? && ops[0].group in gs {
        WithoutMemberDistinct(gs[ops[0].group].members, ops[0].service);
      }
      RunsKeepGroups(Apply(gs, ops[0]), ops[1..]);
    }
  }

  /** The key presented by the registrant that founded `group`, the last time a registration found it absent. */
  ghost function FounderKey(gs: Groups, ops: seq<Op>, group: Bytes, founder: Option<Bytes>): Option<Bytes>
    decreases |ops|
  {
    if ops == [] then founder
    else
      var op := ops[0];
      FounderKey(Apply(gs, op), ops[1..], group,
                 if op.Register? && op.group == group && group !in gs then op.key else founder)
  }

  /** Under any run of registrations a group's key is its founder's, until the group empties and is founded anew. */
  lemma {:induction false} KeyIsFounders(gs: Groups, ops: seq<Op>, group: Bytes, founder: Option<Bytes>)
    requires group in gs ==> gs[group].key == founder
    ensures group in ApplyAll(gs, ops) ==> ApplyAll(gs, ops)[group].key == FounderKey(gs, ops, group, founder)
    decreases |ops|
  {
    if ops == [] {
    } else {
      var op := ops[0];
      var founder' := if op.Register? && op.group == group && group !in gs then op.key else founder;
      KeyIsFounders(Apply(gs, op), ops[1..], group, founder');
    }
  }
}
