/** Configuration reloads as a diff: which events a changed file produces, and what replaying them does to a table.

    Hash maps iterate in an unspecified order, so every iteration takes the order as a parameter and every result
    holds for all of them. */
module ConfigDiff {
  import opened Basics
  import opened Configs

  /** `order` visits each key once. */
  ghost predicate Enumerates(order: seq<Bytes>, keys: set<Bytes>) {
    && (forall k :: k in keys <==> k in order)
    && Distinct(order)
  }

  predicate Changed<C(==)>(was: map<Bytes, C>, now: map<Bytes, C>, n: Bytes) {
    n in now && !(n in was && was[n] == now[n])
  }

  function Deletions<C>(now: map<Bytes, C>, order: seq<Bytes>): seq<ServiceChange<C>> {
    if order == [] then []
    else (if order[0] in now then [] else [Delete(order[0])]) + Deletions(now, order[1..])
  }

  function Additions<C(==)>(was: map<Bytes, C>, now: map<Bytes, C>, order: seq<Bytes>): seq<ServiceChange<C>> {
    if order == [] then []
    else (if Changed(was, now, order[0]) then [Add(now[order[0]])] else []) + Additions(was, now, order[1..])
  }

  /** The events of one instance's services: all deletions, then all additions and changes. */
  function ServiceEvents<C(==)>(was: map<Bytes, C>, now: map<Bytes, C>, oldOrder: seq<Bytes>, newOrder: seq<Bytes>)
    : seq<ServiceChange<C>>
  {
    Deletions(now, oldOrder) + Additions(was, now, newOrder)
  }

  datatype Orders = Orders(oldServer: seq<Bytes>, newServer: seq<Bytes>, oldClient: seq<Bytes>, newClient: seq<Bytes>)

  ghost predicate ValidOrders(was: Config, now: Config, o: Orders) {
    && (was.server.Some? ==> Enumerates(o.oldServer, was.server.value.services.Keys))
    && (now.server.Some? ==> Enumerates(o.newServer, now.server.value.services.Keys))
    && (was.client.Some? ==> Enumerates(o.oldClient, was.client.value.services.Keys))
    && (now.client.Some? ==> Enumerates(o.newClient, now.client.value.services.Keys))
  }

  function AsServerChanges(cs: seq<ServiceChange<ServerService>>): seq<ConfigChange> {
    seq(|cs|, i requires 0 <= i < |cs| => ServerChange(cs[i]))
  }

  function AsClientChanges(cs: seq<ServiceChange<ClientService>>): seq<ConfigChange> {
    seq(|cs|, i requires 0 <= i < |cs| => ClientChange(cs[i]))
  }

  function ServerEvents(was: ServerConfig, now: ServerConfig, o: Orders): Option<seq<ConfigChange>> {
    if was.(services := map[]) != now.(services := map[]) then None
    else Some(AsServerChanges(ServiceEvents(was.services, now.services, o.oldServer, o.newServer)))
  }

  function ClientEvents(was: ClientConfig, now: ClientConfig, o: Orders): Option<seq<ConfigChange>> {
    if was.(services := map[]) != now.(services := map[]) then None
    else Some(AsClientChanges(ServiceEvents(was.services, now.services, o.oldClient, o.newClient)))
  }

  /** `calculate_events`, with the missing list of an unchanged file flattened to the empty one. */
  function CalculateEvents(was: Config, now: Config, o: Orders): seq<ConfigChange> {
    if was == now then []
    else if was.server.Some? != now.server.Some? || was.client.Some? != now.client.Some? then [General(now)]
    else
      var server := if was.server != now.server then ServerEvents(was.server.value, now.server.value, o) else Some([]);
      var client := if was.client != now.client then ClientEvents(was.client.value, now.client.value, o) else Some([]);
      if server.None? || client.None? then [General(now)] else server.value + client.value
  }

  /** The watcher task: the configuration it last saw and the events it has sent. */
  class ConfigWatcher {
    var last: Config
    var sent: seq<ConfigChange>

    constructor (origin: Config)
      ensures last == origin && sent == [General(origin)]
    {
      last, sent := origin, [General(origin)];
    }

    /** One file event; `file` is missing when the new content is invalid, and then nothing happens. */
    method Rescan(file: Option<Config>, o: Orders)
      modifies this
      ensures file.None? ==> last == old(last) && sent == old(sent)
      ensures file.Some? ==> last == file.value && sent == old(sent) + CalculateEvents(old(last), file.value, o)
    {
      if file.Some? {
        var events := CalculateEvents(last, file.value, o);
        for i := 0 to |events|
          invariant last == old(last) && sent == old(sent) + events[..i]
        {
          sent := sent + [events[i]];
        }
        last := file.value;
      }
    }
  }

  // ---------------------------------------------------------------- replaying service events on a table

  /** Where an added service is stored; None when the addition is ignored. */
  type KeyFunction<!C> = C -> Option<Bytes>

  function After<C>(m: map<Bytes, C>, change: ServiceChange<C>, key: KeyFunction<C>): map<Bytes, C> {
    match change
    case Add(c) => (match key(c) case Some(k) => m[k := c] case None => m)
    case Delete(n) => m - {n}
  }

  function AfterAll<C>(m: map<Bytes, C>, changes: seq<ServiceChange<C>>, key: KeyFunction<C>): map<Bytes, C>
    decreases |changes|
  {
    if changes == [] then m else AfterAll(After(m, changes[0], key), changes[1..], key)
  }

  lemma {:induction false} AfterAllConcat<C>(m: map<Bytes, C>, a: seq<ServiceChange<C>>, b: seq<ServiceChange<C>>,
                                             key: KeyFunction<C>)
    ensures AfterAll(m, a + b, key) == AfterAll(AfterAll(m, a, key), b, key)
    decreases |a|
  {
    if a == [] {
      assert a + b == b;
    } else {
      AfterAllConcat(After(m, a[0], key), a[1..], b, key);
      assert (a + b)[1..] == a[1..] + b;
    }
  }

  /** Replaying stores the changed service `n` under key `k`. */
  ghost predicate Puts<C>(was: map<Bytes, C>, now: map<Bytes, C>, key: KeyFunction<C>, n: Bytes, k: Bytes) {
    Changed(was, now, n) && key(now[n]) == Some(k)
  }

  /** Replaying the additions visited by `order` stores nothing under key `k`. */
  ghost predicate Spared<C>(was: map<Bytes, C>, now: map<Bytes, C>, key: KeyFunction<C>, order: seq<Bytes>, k: Bytes) {
    forall n :: n in order ==> !Puts(was, now, key, n, k)
  }

  ghost predicate SameAt<C>(a: map<Bytes, C>, b: map<Bytes, C>, k: Bytes) {
    (k in a <==> k in b) && (k in a && k in b ==> a[k] == b[k])
  }

  lemma {:induction false} DeletionsEffect<C>(m: map<Bytes, C>, now: map<Bytes, C>, order: seq<Bytes>,
                                              key: KeyFunction<C>)
    ensures var r := AfterAll(m, Deletions(now, order), key);
      forall k :: if k in order && k !in now then k !in r else SameAt(r, m, k)
    decreases |order|
  {
    if order == [] {
    } else {
      var first := if order[0] in now then [] else [Delete(order[0])];
      AfterAllConcat(m, first, Deletions(now, order[1..]), key);
      DeletionsEffect(AfterAll(m, first, key), now, order[1..], key);
    }
  }

  lemma {:induction false} AdditionsEffect<C>(m: map<Bytes, C>, was: map<Bytes, C>, now: map<Bytes, C>,
                                              order: seq<Bytes>, key: KeyFunction<C>)
    requires Distinct(order)
    requires forall a, b, k :: Puts(was, now, key, a, k) && Puts(was, now, key, b, k) ==> a == b
    ensures var r := AfterAll(m, Additions(was, now, order), key);
      && (forall n, k :: n in order && Puts(was, now, key, n, k) ==> k in r && r[k] == now[n])
      && (forall k :: Spared(was, now, key, order, k) ==> SameAt(r, m, k))
    decreases |order|
  {
    if order == [] {
    } else {
      var first := if Changed(was, now, order[0]) then [Add(now[order[0]])] else [];
      var m' := AfterAll(m, first, key);
      var rest := order[1..];
      AfterAllConcat(m, first, Additions(was, now, rest), key);
      AdditionsEffect(m', was, now, rest, key);
      var r := AfterAll(m, Additions(was, now, order), key);
      assert first != [] ==> first[1..] == [] && m' == After(m, first[0], key);
      forall n, k | n in order && Puts(was, now, key, n, k)
        ensures k in r && r[k] == now[n]
      {
        if n !in rest {
          assert n == order[0] && m'[k] == now[n];
          forall b | b in rest ensures !Puts(was, now, key, b, k) {}
          assert Spared(was, now, key, rest, k);
        }
      }
      forall k | Spared(was, now, key, order, k)
        ensures SameAt(r, m, k)
      {
        assert forall n :: n in rest ==> n in order;
        assert Spared(was, now, key, rest, k);
        assert !Puts(was, now, key, order[0], k);
      }
    }
  }

  /** What replaying the events of a changed file does, key by key and for every iteration order: changed services are
      stored, deleted ones are gone, everything else is untouched. */
  lemma ReplayEffect<C>(m: map<Bytes, C>, was: map<Bytes, C>, now: map<Bytes, C>, oldOrder: seq<Bytes>,
                        newOrder: seq<Bytes>, key: KeyFunction<C>)
    requires Enumerates(oldOrder, was.Keys) && Enumerates(newOrder, now.Keys)
    requires forall a, b, k :: Puts(was, now, key, a, k) && Puts(was, now, key, b, k) ==> a == b
    ensures var r := AfterAll(m, ServiceEvents(was, now, oldOrder, newOrder), key);
      && (forall n, k :: Puts(was, now, key, n, k) ==> k in r && r[k] == now[n])
      && (forall k :: Spared(was, now, key, newOrder, k) ==>
            if k in was && k !in now then k !in r else SameAt(r, m, k))
  {
    AfterAllConcat(m, Deletions(now, oldOrder), Additions(was, now, newOrder), key);
    DeletionsEffect(m, now, oldOrder, key);
    var d := AfterAll(m, Deletions(now, oldOrder), key);
    AdditionsEffect(d, was, now, newOrder, key);
  }
}
