/** The two-index registry: heap boxes shared by two hash indexes whose keys are pointers into the boxes.

    The specification is a plain set of triples; `MultiMap` refines it, and its contracts also carry the memory
    discipline the unsafe code relies on: a search may follow every key of the index it searches, so all of them
    must point at live boxes, and a box may be freed only while it is live. */
module MultiMaps {
  import opened Basics

  datatype Triple<A, B, C> = Triple(k1: A, k2: B, v: C)

  // ---------------------------------------------------------------- specification

  ghost predicate UniqueKeys<A, B, C>(s: set<Triple<A, B, C>>) {
    && (forall x, y :: x in s && y in s && x.k1 == y.k1 ==> x == y)
    && (forall x, y :: x in s && y in s && x.k2 == y.k2 ==> x == y)
  }

  ghost predicate HasKey1<A, B, C>(s: set<Triple<A, B, C>>, k1: A) {
    exists x :: x in s && x.k1 == k1
  }

  ghost predicate HasKey2<A, B, C>(s: set<Triple<A, B, C>>, k2: B) {
    exists x :: x in s && x.k2 == k2
  }

  ghost predicate CanInsert<A, B, C>(s: set<Triple<A, B, C>>, k1: A, k2: B) {
    !HasKey1(s, k1) && !HasKey2(s, k2)
  }

  ghost function Inserted<A, B, C>(s: set<Triple<A, B, C>>, x: Triple<A, B, C>): set<Triple<A, B, C>> {
    if CanInsert(s, x.k1, x.k2) then s + {x} else s
  }

  ghost function Without1<A, B, C>(s: set<Triple<A, B, C>>, k1: A): set<Triple<A, B, C>> {
    set x | x in s && x.k1 != k1
  }

  ghost function Without2<A, B, C>(s: set<Triple<A, B, C>>, k2: B): set<Triple<A, B, C>> {
    set x | x in s && x.k2 != k2
  }

  datatype Op<A, B, C> = Insert(x: Triple<A, B, C>) | Remove1(k1: A) | Remove2(k2: B)

  ghost function Apply<A, B, C>(s: set<Triple<A, B, C>>, op: Op<A, B, C>): set<Triple<A, B, C>> {
    match op
    case Insert(x) => Inserted(s, x)
    case Remove1(k1) => Without1(s, k1)
    case Remove2(k2) => Without2(s, k2)
  }

  ghost function ApplyAll<A, B, C>(s: set<Triple<A, B, C>>, ops: seq<Op<A, B, C>>): set<Triple<A, B, C>>
    decreases |ops|
  {
    if ops == [] then s else ApplyAll(Apply(s, ops[0]), ops[1..])
  }

  /** Under any run of operations no two entries share a key of either kind. */
  lemma {:induction false} RunsKeepKeysUnique<A, B, C>(s: set<Triple<A, B, C>>, ops: seq<Op<A, B, C>>)
    requires UniqueKeys(s)
    ensures UniqueKeys(ApplyAll(s, ops))
    decreases |ops|
  {
    if ops == [] {
    } else {
      RunsKeepKeysUnique(Apply(s, ops[0]), ops[1..]);
    }
  }

  /** Removal by either key undoes an insertion, and both removals agree on the entry they share. */
  lemma RemovalUndoesInsertion<A, B, C>(s: set<Triple<A, B, C>>, x: Triple<A, B, C>)
    requires CanInsert(s, x.k1, x.k2)
    ensures Without1(Inserted(s, x), x.k1) == s
    ensures Without2(Inserted(s, x), x.k2) == s
  {
    forall y | y in s ensures y.k1 != x.k1 && y.k2 != x.k2 {}
    assert Without1(Inserted(s, x), x.k1) == s;
    assert Without2(Inserted(s, x), x.k2) == s;
  }

  // ---------------------------------------------------------------- implementation

  /** A heap box: the keys, the value, and the address both indexes share. */
  class Item<A, B, C> {
    const k1: A
    const k2: B
    const v: C

    constructor (k1: A, k2: B, v: C)
      ensures this.k1 == k1 && this.k2 == k2 && this.v == v
    {
      this.k1, this.k2, this.v := k1, k2, v;
    }

    function AsTriple(): Triple<A, B, C> { Triple(k1, k2, v) }
  }

  /** One slot of an index: a key pointing into `key`, and the raw pointer `item`. */
  datatype Slot<A, B, C> = Slot(key: Item<A, B, C>, item: Item<A, B, C>)

  class MultiMap<A(==), B(==), C> {
    var map1: set<Slot<A, B, C>>
    var map2: set<Slot<A, B, C>>
    ghost var boxes: set<Item<A, B, C>>   // every box ever made
    ghost var live: set<Item<A, B, C>>        // boxes not freed yet
    ghost var freed: multiset<Item<A, B, C>>  // one occurrence per time a box was freed

    /** Only boxes are freed, and each box is either live or was freed once. */
    ghost predicate FreedOnce()
      reads this
    {
      && (forall b :: b in freed ==> b in boxes)
      && (forall b :: b in boxes ==> freed[b] == if b in live then 0 else 1)
    }

    /** Both indexes hold exactly the live boxes, under keys that point into them, and no key occurs twice. */
    ghost predicate Valid()
      reads this
    {
      && live <= boxes && FreedOnce()
      && (forall s :: s in map1 ==> s.key == s.item && s.item in live)
      && (forall s :: s in map2 ==> s.key == s.item && s.item in live)
      && (forall b :: b in live ==> Slot(b, b) in map1 && Slot(b, b) in map2)
      && (forall b, c :: b in live && c in live && b.k1 == c.k1 ==> b == c)
      && (forall b, c :: b in live && c in live && b.k2 == c.k2 ==> b == c)
    }

    /** The set of triples the two indexes stand for. */
    ghost function Contents(): set<Triple<A, B, C>>
      reads this
    {
      set b | b in live :: b.AsTriple()
    }

    constructor ()
      ensures Valid() && Contents() == {} && boxes == {}
    {
      map1, map2, boxes, live, freed := {}, {}, {}, {}, multiset{};
    }

    /** Both indexes of a valid map agree with the same set of triples, unique in each key. */
    lemma ContentsUnique()
      requires Valid()
      ensures UniqueKeys(Contents())
    {
      forall x, y | x in Contents() && y in Contents() && (x.k1 == y.k1 || x.k2 == y.k2)
        ensures x == y
      {
        var b :| b in live && b.AsTriple() == x;
        var c :| c in live && c.AsTriple() == y;
        assert b == c;
      }
    }

    /** Hash lookup in the first index: any of its keys may be followed, so all must point at live boxes. */
    method Search1(k1: A) returns (r: Option<Slot<A, B, C>>)
      requires forall s :: s in map1 ==> s.key in live
      ensures r.Some? ==> r.value in map1 && r.value.key.k1 == k1
      ensures r.None? ==> forall s :: s in map1 ==> s.key.k1 != k1
    {
      if s :| s in map1 && s.key.k1 == k1 {
        r := Some(s);
      } else {
        r := None;
      }
    }

    /** Hash lookup in the second index, under the same condition. */
    method Search2(k2: B) returns (r: Option<Slot<A, B, C>>)
      requires forall s :: s in map2 ==> s.key in live
      ensures r.Some? ==> r.value in map2 && r.value.key.k2 == k2
      ensures r.None? ==> forall s :: s in map2 ==> s.key.k2 != k2
    {
      if s :| s in map2 && s.key.k2 == k2 {
        r := Some(s);
      } else {
        r := None;
      }
    }

    /** Drop a box: allowed only while it is live, so never twice. */
    ghost method Free(b: Item<A, B, C>)
      requires b in live && live <= boxes && FreedOnce()
      modifies this`live, this`freed
      ensures live == old(live) - {b} && FreedOnce()
    {
      live := live - {b};
      freed := freed + multiset{b};
    }

    method Insert(k1: A, k2: B, v: C) returns (ok: bool)
      requires Valid()
      modifies this
      ensures Valid()
      ensures ok <==> CanInsert(old(Contents()), k1, k2)
      ensures Contents() == Inserted(old(Contents()), Triple(k1, k2, v))
      ensures !ok ==> map1 == old(map1) && map2 == old(map2) && boxes == old(boxes)
    {
      var s1 := Search1(k1);
      var s2 := Search2(k2);
      ok := s1.None? && s2.None?;
      assert ok <==> CanInsert(Contents(), k1, k2) by {
        assert s1.Some? ==> s1.value.item.AsTriple() in Contents();
        assert s2.Some? ==> s2.value.item.AsTriple() in Contents();
      }
      if ok {
        var item := new Item(k1, k2, v);
        Link(item);
        assert Contents() == old(Contents()) + {item.AsTriple()};
      }
    }

    /** Store the pointers to a new box in both indexes. */
    method Link(item: Item<A, B, C>)
      requires Valid() && item !in boxes
      requires forall b :: b in live ==> b.k1 != item.k1 && b.k2 != item.k2
      modifies this
      ensures Valid() && live == old(live) + {item} && boxes == old(boxes) + {item}
    {
      map1 := map1 + {Slot(item, item)};
      map2 := map2 + {Slot(item, item)};
      live, boxes := live + {item}, boxes + {item};
    }

    method Get1(k1: A) returns (r: Option<C>)
      requires Valid()
      ensures r.None? <==> !HasKey1(Contents(), k1)
      ensures r.Some? ==> exists k2 :: Triple(k1, k2, r.value) in Contents()
    {
      var s := Search1(k1);
      if s.Some? {
        assert s.value.item.AsTriple() in Contents();
        r := Some(s.value.item.v);
      } else {
        r := None;
      }
    }

    method Get2(k2: B) returns (r: Option<C>)
      requires Valid()
      ensures r.None? <==> !HasKey2(Contents(), k2)
      ensures r.Some? ==> exists k1 :: Triple(k1, k2, r.value) in Contents()
    {
      var s := Search2(k2);
      if s.Some? {
        assert s.value.item.AsTriple() in Contents();
        r := Some(s.value.item.v);
      } else {
        r := None;
      }
    }

    method Remove1(k1: A) returns (r: Option<C>)
      requires Valid()
      modifies this
      ensures Valid()
      ensures Contents() == Without1(old(Contents()), k1)
      ensures r.None? <==> !HasKey1(old(Contents()), k1)
      ensures r.Some? ==> exists k2 :: Triple(k1, k2, r.value) in old(Contents())
      ensures r.None? ==> map1 == old(map1) && map2 == old(map2)
    {
      var s := Search1(k1);
      if s.None? {
        return None;
      }
      var item := s.value.item;
      map1 := map1 - {s.value};
      // the box is still live here, so the key of its own slot in map2 may be followed
      var s2 := Search2(item.k2);
      map2 := map2 - {s2.value};
      assert item.AsTriple() in Contents();
      Free(item);
      r := Some(item.v);
    }

    method Remove2(k2: B) returns (r: Option<C>)
      requires Valid()
      modifies this
      ensures Valid()
      ensures Contents() == Without2(old(Contents()), k2)
      ensures r.None? <==> !HasKey2(old(Contents()), k2)
      ensures r.Some? ==> exists k1 :: Triple(k1, k2, r.value) in old(Contents())
      ensures r.None? ==> map1 == old(map1) && map2 == old(map2)
    {
      var s := Search2(k2);
      if s.None? {
        return None;
      }
      var item := s.value.item;
      map2 := map2 - {s.value};
      var s1 := Search1(item.k1);
      map1 := map1 - {s1.value};
      assert item.AsTriple() in Contents();
      Free(item);
      r := Some(item.v);
    }

    /** `Drop`: forget the first index, then free every box while draining the second.  Its keys dangle during the
        drain, which is why it is never searched there.  In the end every box ever made was freed exactly once. */
    method Drop()
      requires Valid()
      modifies this
      ensures map1 == {} && map2 == {} && live == {}
      ensures boxes == old(boxes)
      ensures forall b :: b in boxes ==> freed[b] == 1
    {
      map1 := {};
      while map2 != {}
        invariant boxes == old(boxes) && live <= boxes && FreedOnce()
        invariant map1 == {}
        invariant forall s :: s in map2 ==> s.key == s.item && s.item in live
        invariant forall b :: b in live ==> Slot(b, b) in map2
        decreases map2
      {
        var s :| s in map2;
        map2 := map2 - {s};
        Free(s.item);
      }
    }
  }
}
