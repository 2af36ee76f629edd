/**
 * The open-addressing hash set used for hash-consing (include/dense_set.hpp).
 *
 * The table keeps two arrays of equal length side by side: the keys, and a
 * sentinel per slot holding an occupancy flag and seven bits of the key's
 * hash. Keys are never removed, so a lookup may stop at the first empty
 * slot; insertion probes forward, wrapping, from the key's home slot
 * `hash % capacity` and gives up after ten slots.
 *
 * The table invariant and the lookup and probe results are first defined
 * on plain sequences (the keys and the sentinels); the class then keeps
 * its arrays in step with those definitions.
 */
module DenseSets {
  import opened StaticVectors
  import opened Options

  /** `sentinel`: the occupancy flag and a 7-bit reduced hash. */
  datatype Sentinel = Sentinel(filled: bool, reducedHash: nat)

  /** `sentinel{}`: an empty slot with reduced hash 0. */
  const EmptySentinel: Sentinel := Sentinel(false, 0)

  /** The probe gives up after this many slots. */
  const ProbeSpots: nat := 10

  /**
   * The reduced hash of a 64-bit hash: its top seven bits, cast to a byte
   * and masked with 0xef, which clears bit 4 of the seven.
   */
  function ReducedHash(hash: bv64): (tag: nat)
    ensures tag < 128
    ensures (tag / 16) % 2 == 0
  {
    (((hash >> 57) % 256) & 0xef) as nat
  }

  /** `sentinel::colonize`: raise the flag and store the tag in the 7-bit field. */
  function Colonize(s: Sentinel, reducedHash: nat): (r: Sentinel)
    ensures r.filled
    ensures reducedHash < 128 ==> Matches(r, reducedHash)
  {
    Sentinel(true, reducedHash % 128)
  }

  /** `sentinel::matches`: the slot is filled and holds the same tag. */
  function Matches(s: Sentinel, reducedHash: nat): (r: bool)
    ensures r ==> s.filled
  {
    s.filled && s.reducedHash == reducedHash
  }

  /** A colonized slot matches exactly the tag it was given, and an empty sentinel matches nothing. */
  lemma ColonizeMatches(s: Sentinel, t: nat, u: nat)
    requires t < 128
    ensures Matches(Colonize(s, t), u) <==> u == t
    ensures !Matches(EmptySentinel, u)
  {
  }

  /** `inner_iterator::operator++`: the next index, wrapping to 0 after the last. */
  function Wrap(index: nat, capacity: nat): (r: nat)
    requires capacity > 0
    ensures r < capacity
    ensures index < capacity ==> r == if index + 1 == capacity then 0 else index + 1
  {
    (index + 1) % capacity
  }

  /** The slot `d` places after `home`, wrapping around the table. */
  function Slot(home: nat, d: nat, capacity: nat): (i: nat)
    requires home < capacity && d <= capacity
    ensures i < capacity
    ensures d == capacity ==> i == home
  {
    if home + d < capacity then home + d else home + d - capacity
  }

  /** How many places `i` lies after `home`, wrapping around the table. */
  function Distance(home: nat, i: nat, capacity: nat): (d: nat)
    requires home < capacity && i < capacity
    ensures d < capacity
    ensures Slot(home, d, capacity) == i
  {
    if home <= i then i - home else i + capacity - home
  }

  /** Stepping the iterator from the slot d places on reaches the slot d + 1 places on. */
  lemma WrapSlot(home: nat, d: nat, capacity: nat)
    requires home < capacity && d < capacity
    ensures Wrap(Slot(home, d, capacity), capacity) == Slot(home, d + 1, capacity)
  {
  }

  /** Distinct distances below the capacity name distinct slots. */
  lemma SlotInjective(home: nat, d: nat, e: nat, capacity: nat)
    requires home < capacity && d < capacity && e < capacity
    ensures Slot(home, d, capacity) == Slot(home, e, capacity) <==> d == e
  {
  }

  /** A slot's distance from home is the number of places it was reached in. */
  lemma DistanceOfSlot(home: nat, d: nat, capacity: nat)
    requires home < capacity && d < capacity
    ensures Distance(home, Slot(home, d, capacity), capacity) == d
  {
  }

  /** The home slot of a key: `hash % capacity()`. */
  function Home<K>(hash: K -> bv64, key: K, capacity: nat): (home: nat)
    requires capacity > 0
    ensures home < capacity
  {
    (hash(key) as int) % capacity
  }

  /** `min(10, capacity)`: how many slots a probe may look at. */
  function ProbeLimit(capacity: nat): (limit: nat)
    ensures limit <= capacity && limit <= ProbeSpots
    ensures limit == capacity || limit == ProbeSpots
  {
    if capacity < ProbeSpots then capacity else ProbeSpots
  }

  /** The keys stored in filled slots. */
  function Contents<K>(keys: seq<K>, tags: seq<Sentinel>): set<K>
    requires |keys| == |tags|
  {
    set i | 0 <= i < |tags| && tags[i].filled :: keys[i]
  }

  /** The indices of the filled slots. */
  function FilledSlots(tags: seq<Sentinel>): set<nat>
  {
    set i: nat | i < |tags| && tags[i].filled
  }

  /** Every filled slot carries the reduced hash of its key. */
  ghost predicate TagsAgree<K>(hash: K -> bv64, keys: seq<K>, tags: seq<Sentinel>)
    requires |keys| == |tags|
  {
    forall i :: 0 <= i < |tags| && tags[i].filled ==> tags[i].reducedHash == ReducedHash(hash(keys[i]))
  }

  /**
   * No tombstones: every slot from a stored key's home slot up to (not
   * including) its own slot is filled.
   */
  ghost predicate Reachable<K>(hash: K -> bv64, keys: seq<K>, tags: seq<Sentinel>)
    requires |keys| == |tags| > 0
  {
    forall i :: 0 <= i < |tags| && tags[i].filled ==>
      var home := Home(hash, keys[i], |tags|);
      forall d :: 0 <= d < Distance(home, i, |tags|) ==> tags[Slot(home, d, |tags|)].filled
  }

  /** No key is stored in two filled slots. */
  ghost predicate Unique<K>(keys: seq<K>, tags: seq<Sentinel>)
    requires |keys| == |tags|
  {
    forall i, j :: 0 <= i < j < |tags| && tags[i].filled && tags[j].filled ==> keys[i] != keys[j]
  }

  /** The invariant of the table. */
  ghost predicate TableInvariant<K>(hash: K -> bv64, keys: seq<K>, tags: seq<Sentinel>)
  {
    |keys| == |tags| > 0 && TagsAgree(hash, keys, tags) && Reachable(hash, keys, tags) && Unique(keys, tags)
  }

  /**
   * The private `find(key, hash, reduced_hash)`, from the slot d places
   * after home on: the first slot that holds the key behind a matching
   * sentinel, or the capacity (end()) once an empty slot is met or the
   * search has come round to home again.
   */
  function FindFrom<K(==)>(keys: seq<K>, tags: seq<Sentinel>, key: K, tag: nat, home: nat, d: nat): (r: nat)
    requires |keys| == |tags| && home < |tags| && d <= |tags|
    ensures r <= |tags|
    ensures r < |tags| ==> tags[r].filled && keys[r] == key && tags[r].reducedHash == tag
    decreases |tags| - d
  {
    if d == |tags| then |tags|
    else
      var i := Slot(home, d, |tags|);
      if !tags[i].filled then |tags|
      else if Matches(tags[i], tag) && keys[i] == key then i
      else FindFrom(keys, tags, key, tag, home, d + 1)
  }

  /** `find(key)`: the search from the key's home slot with the key's reduced hash. */
  function Lookup<K(==)>(hash: K -> bv64, keys: seq<K>, tags: seq<Sentinel>, key: K): (r: nat)
    requires |keys| == |tags| > 0
    ensures r <= |tags|
    ensures r < |tags| ==> tags[r].filled && keys[r] == key && tags[r].reducedHash == ReducedHash(hash(key))
  {
    FindFrom(keys, tags, key, ReducedHash(hash(key)), Home(hash, key, |tags|), 0)
  }

  /**
   * `probe(start)` from the slot d places after home on: the first empty
   * slot among the first `limit` slots, or the capacity (end()).
   */
  function ProbeFrom(tags: seq<Sentinel>, home: nat, d: nat, limit: nat): (r: nat)
    requires home < |tags| && d <= limit <= |tags|
    ensures r <= |tags|
    ensures r < |tags| ==> !tags[r].filled && d <= Distance(home, r, |tags|) < limit
    ensures r < |tags| ==> forall e :: d <= e < Distance(home, r, |tags|) ==> tags[Slot(home, e, |tags|)].filled
    ensures r == |tags| <==> forall e :: d <= e < limit ==> tags[Slot(home, e, |tags|)].filled
    decreases limit - d
  {
    if d == limit then |tags|
    else
      var i := Slot(home, d, |tags|);
      DistanceOfSlot(home, d, |tags|);
      if !tags[i].filled then i else ProbeFrom(tags, home, d + 1, limit)
  }

  /** The slot an insertion of `key` would fill, or the capacity when the probe fails. */
  function FreeSlot<K>(hash: K -> bv64, tags: seq<Sentinel>, key: K): (r: nat)
    requires |tags| > 0
    ensures r <= |tags|
    ensures r < |tags| ==> !tags[r].filled && Distance(Home(hash, key, |tags|), r, |tags|) < ProbeLimit(|tags|)
    ensures r == |tags| <==>
      forall e :: 0 <= e < ProbeLimit(|tags|) ==> tags[Slot(Home(hash, key, |tags|), e, |tags|)].filled
  {
    ProbeFrom(tags, Home(hash, key, |tags|), 0, ProbeLimit(|tags|))
  }

  /** Lookup walks a run of filled slots, so it reaches any stored key (lemma by induction on the distance). */
  lemma {:induction false} FindFromReaches<K>(hash: K -> bv64, keys: seq<K>, tags: seq<Sentinel>, key: K, j: nat, d: nat)
    requires TableInvariant(hash, keys, tags)
    requires j < |tags| && tags[j].filled && keys[j] == key
    requires d <= Distance(Home(hash, key, |tags|), j, |tags|)
    ensures FindFrom(keys, tags, key, ReducedHash(hash(key)), Home(hash, key, |tags|), d) == j
    decreases |tags| - d
  {
    var home := Home(hash, key, |tags|);
    var i := Slot(home, d, |tags|);
    if d == Distance(home, j, |tags|) {
      assert i == j;
    } else {
      assert tags[i].filled;
      SlotInjective(home, d, Distance(home, j, |tags|), |tags|);
      DistinctKeys(keys, tags, i, j);
      FindFromReaches(hash, keys, tags, key, j, d + 1);
    }
  }

  /** `find` returns a slot holding the key exactly when the key is stored, and end() otherwise. */
  lemma FindCorrect<K>(hash: K -> bv64, keys: seq<K>, tags: seq<Sentinel>, key: K)
    requires TableInvariant(hash, keys, tags)
    ensures Lookup(hash, keys, tags, key) < |tags| <==> key in Contents(keys, tags)
    ensures Lookup(hash, keys, tags, key) < |tags| ==> tags[Lookup(hash, keys, tags, key)].filled && keys[Lookup(hash, keys, tags, key)] == key
  {
    if key in Contents(keys, tags) {
      var j :| 0 <= j < |tags| && tags[j].filled && keys[j] == key;
      FindFromReaches(hash, keys, tags, key, j, 0);
    }
  }

  /** A probe fails exactly when every slot it may look at is filled. */
  lemma ProbeFails<K>(hash: K -> bv64, tags: seq<Sentinel>, key: K)
    requires |tags| > 0
    ensures var home := Home(hash, key, |tags|);
      FreeSlot(hash, tags, key) == |tags| <==>
      forall e :: 0 <= e < ProbeLimit(|tags|) ==> tags[Slot(home, e, |tags|)].filled
  {
  }

  /**
   * Filling the first free slot with a new key keeps the invariant, and
   * the stored keys grow by exactly that key.
   */
  lemma InsertKeepsInvariant<K>(hash: K -> bv64, keys: seq<K>, tags: seq<Sentinel>, key: K)
    requires TableInvariant(hash, keys, tags)
    requires key !in Contents(keys, tags)
    requires FreeSlot(hash, tags, key) < |tags|
    ensures var s := FreeSlot(hash, tags, key);
      var keys' := keys[s := key];
      var tags' := tags[s := Colonize(tags[s], ReducedHash(hash(key)))];
      TableInvariant(hash, keys', tags') && Contents(keys', tags') == Contents(keys, tags) + {key}
  {
    var n := |tags|;
    var s := FreeSlot(hash, tags, key);
    var keys' := keys[s := key];
    var tags' := tags[s := Colonize(tags[s], ReducedHash(hash(key)))];
    assert TagsAgree(hash, keys', tags');
    InsertReachable(hash, keys, tags, key, s);
    assert Unique(keys', tags') by {
      forall i, j | 0 <= i < j < n && tags'[i].filled && tags'[j].filled
        ensures keys'[i] != keys'[j]
      {
        if i != s && j != s {
          assert tags[i].filled && tags[j].filled;
        } else if i == s {
          assert keys[j] in Contents(keys, tags);
        } else {
          assert keys[i] in Contents(keys, tags);
        }
      }
    }
    assert Contents(keys', tags') == Contents(keys, tags) + {key} by {
      forall x | x in Contents(keys', tags')
        ensures x in Contents(keys, tags) + {key}
      {
        var i :| 0 <= i < n && tags'[i].filled && keys'[i] == x;
        if i != s {
          assert tags[i].filled && keys[i] == x;
        }
      }
      forall x | x in Contents(keys, tags)
        ensures x in Contents(keys', tags')
      {
        var i :| 0 <= i < n && tags[i].filled && keys[i] == x;
        assert i != s;
        assert tags'[i].filled && keys'[i] == x;
      }
      assert tags'[s].filled && keys'[s] == key;
    }
  }

  /** The reachability half of InsertKeepsInvariant. */
  lemma InsertReachable<K>(hash: K -> bv64, keys: seq<K>, tags: seq<Sentinel>, key: K, s: nat)
    requires TableInvariant(hash, keys, tags)
    requires s == FreeSlot(hash, tags, key) < |tags|
    ensures Reachable(hash, keys[s := key], tags[s := Colonize(tags[s], ReducedHash(hash(key)))])
  {
    var n := |tags|;
    var keys' := keys[s := key];
    var tags' := tags[s := Colonize(tags[s], ReducedHash(hash(key)))];
    forall i | 0 <= i < n && tags'[i].filled
      ensures var home := Home(hash, keys'[i], n);
        forall d :: 0 <= d < Distance(home, i, n) ==> tags'[Slot(home, d, n)].filled
    {
      var home := Home(hash, keys'[i], n);
      forall d | 0 <= d < Distance(home, i, n)
        ensures tags'[Slot(home, d, n)].filled
      {
        if i == s {
          assert tags[Slot(home, d, n)].filled;
        } else {
          assert tags[i].filled;
        }
      }
    }
  }

  /** `clear()`: with every sentinel reset the invariant holds and nothing is stored. */
  lemma ClearEmpties<K>(hash: K -> bv64, keys: seq<K>, n: nat)
    requires |keys| == n > 0
    ensures TableInvariant(hash, keys, seq(n, _ => EmptySentinel))
    ensures Contents(keys, seq(n, _ => EmptySentinel)) == {}
  {
  }

  /** Two different filled slots hold different keys. */
  lemma DistinctKeys<K>(keys: seq<K>, tags: seq<Sentinel>, i: nat, j: nat)
    requires |keys| == |tags| && Unique(keys, tags)
    requires i < |tags| && j < |tags| && tags[i].filled && tags[j].filled && i != j
    ensures keys[i] != keys[j]
  {
    if j < i {
      assert tags[j].filled;
    }
  }

  /** With unique keys there are as many stored keys as filled slots. */
  lemma ContentsCount<K>(keys: seq<K>, tags: seq<Sentinel>)
    requires |keys| == |tags| && Unique(keys, tags)
    ensures |Contents(keys, tags)| == |FilledSlots(tags)|
  {
    ImageCount(keys, tags, FilledSlots(tags));
    assert Contents(keys, tags) == set i | i in FilledSlots(tags) :: keys[i];
  }

  /** The keys of a set of filled slots are as many as the slots (induction on the set). */
  lemma {:induction false} ImageCount<K>(keys: seq<K>, tags: seq<Sentinel>, slots: set<nat>)
    requires |keys| == |tags| && Unique(keys, tags)
    requires forall i :: i in slots ==> i < |tags| && tags[i].filled
    ensures |set i | i in slots :: keys[i]| == |slots|
    decreases slots
  {
    if slots != {} {
      var i :| i in slots;
      var rest := slots - {i};
      ImageCount(keys, tags, rest);
      var image := set j | j in slots :: keys[j];
      var image' := set j | j in rest :: keys[j];
      assert keys[i] !in image' by {
        forall j | j in rest
          ensures keys[j] != keys[i]
        {
          DistinctKeys(keys, tags, i, j);
        }
      }
      assert image == image' + {keys[i]};
    }
  }

  /** At most every slot is filled, and all of them exactly when each one is (induction on the length). */
  lemma {:induction false} FilledSlotsCount(tags: seq<Sentinel>)
    ensures |FilledSlots(tags)| <= |tags|
    ensures |FilledSlots(tags)| == |tags| <==> forall i :: 0 <= i < |tags| ==> tags[i].filled
  {
    if tags != [] {
      var n := |tags| - 1;
      var front := tags[..n];
      FilledSlotsCount(front);
      if tags[n].filled {
        assert FilledSlots(tags) == FilledSlots(front) + {n};
      } else {
        assert FilledSlots(tags) == FilledSlots(front);
      }
      assert forall i :: 0 <= i < n ==> front[i] == tags[i];
    }
  }

  /** A table holding as many keys as it has slots has every slot filled. */
  lemma FullTable<K>(hash: K -> bv64, keys: seq<K>, tags: seq<Sentinel>)
    requires TableInvariant(hash, keys, tags)
    ensures |Contents(keys, tags)| == |tags| <==> forall i :: 0 <= i < |tags| ==> tags[i].filled
  {
    ContentsCount(keys, tags);
    FilledSlotsCount(tags);
  }

  /** A table holding as many keys as slots rejects every new key. */
  lemma FullTableRejects<K>(hash: K -> bv64, keys: seq<K>, tags: seq<Sentinel>, key: K)
    requires TableInvariant(hash, keys, tags)
    requires |Contents(keys, tags)| == |tags|
    ensures FreeSlot(hash, tags, key) == |tags|
  {
    FullTable(hash, keys, tags);
  }

  /**
   * A table of at most ten slots accepts a new key whenever it holds fewer
   * keys than slots: the probe then looks at every slot.
   */
  lemma SmallTableAccepts<K>(hash: K -> bv64, keys: seq<K>, tags: seq<Sentinel>, key: K)
    requires TableInvariant(hash, keys, tags)
    requires |tags| <= ProbeSpots && |Contents(keys, tags)| < |tags|
    ensures FreeSlot(hash, tags, key) < |tags|
  {
    FullTable(hash, keys, tags);
    var k :| 0 <= k < |tags| && !tags[k].filled;
    var home := Home(hash, key, |tags|);
    var d := Distance(home, k, |tags|);
    assert !tags[Slot(home, d, |tags|)].filled;
  }

  /**
   * `dense_set<Key, Hash>`: the keys and the sentinels in two static
   * vectors of the same size, and the count of successful insertions.
   * The hasher is a parameter; keys compare with `==`.
   */
  class DenseSet<K(==,0)> {
    const hash: K -> bv64
    const elements: StaticVector<K>
    const sentinels: StaticVector<Sentinel>
    /** `_size`: the number of successful insertions since construction. */
    var size: nat

    ghost function Keys(): seq<K>
      reads elements, elements.storage
    {
      elements.Elements()
    }

    ghost function Tags(): seq<Sentinel>
      reads sentinels, sentinels.storage
    {
      sentinels.Elements()
    }

    /** The keys the set holds. */
    ghost function Stored(): set<K>
      reads elements, elements.storage, sentinels, sentinels.storage
      requires |Keys()| == |Tags()|
    {
      Contents(Keys(), Tags())
    }

    /**
     * The two vectors have separate arrays of one length, the table
     * invariant holds, and `_size` is never below the number of stored keys
     * (it can be above it after `clear()`).
     */
    ghost predicate Valid()
      reads this, elements, elements.storage, sentinels, sentinels.storage
    {
      && elements.Valid() && sentinels.Valid()
      && elements.storage as object != sentinels.storage as object
      && TableInvariant(hash, Keys(), Tags())
      && |Stored()| <= size
    }

    /** `dense_set(count)` for a positive count: every sentinel starts empty. */
    constructor (hash: K -> bv64, count: nat)
      requires count > 0
      ensures Valid() && fresh(elements) && fresh(elements.storage) && fresh(sentinels) && fresh(sentinels.storage)
      ensures this.hash == hash && Capacity() == count && size == 0
      ensures Tags() == seq(count, _ => EmptySentinel) && Stored() == {}
    {
      this.hash := hash;
      elements := new StaticVector(count);
      sentinels := new StaticVector.Filled(count, EmptySentinel);
      size := 0;
      new;
      ClearEmpties(hash, elements.Elements(), count);
    }

    /** `capacity()`: the number of slots. */
    function Capacity(): (n: nat)
      requires Valid()
      reads this, elements, elements.storage, sentinels, sentinels.storage
      ensures n == |Keys()| == |Tags()| > 0
    {
      elements.size
    }

    /** `end()`: the index one past the last slot. */
    function End(): (n: nat)
      requires Valid()
      reads this, elements, elements.storage, sentinels, sentinels.storage
      ensures n == |Keys()| == |Tags()|
    {
      Capacity()
    }

    /** `size()`. */
    function Size(): (n: nat)
      requires Valid()
      reads this, elements, elements.storage, sentinels, sentinels.storage
      ensures n >= |Stored()|
    {
      size
    }

    /** `empty()`: tests the insertion count, not the slots. */
    function IsEmpty(): (r: bool)
      requires Valid()
      reads this, elements, elements.storage, sentinels, sentinels.storage
      ensures r ==> Stored() == {}
    {
      size == 0
    }

    /** `operator[]`: the key in a filled slot. */
    function At(index: nat): (key: K)
      requires Valid() && index < Capacity() && Tags()[index].filled
      reads this, elements, elements.storage, sentinels, sentinels.storage
      ensures key == Keys()[index]
      ensures key in Stored()
    {
      elements.At(index)
    }

    /** The private `find(key, hash, reduced_hash)`: the do-while walk from `hash % capacity()`. */
    method FindWith(key: K, h: bv64, tag: nat) returns (index: nat)
      requires Valid()
      ensures index == FindFrom(Keys(), Tags(), key, tag, (h as int) % Capacity(), 0)
    {
      ghost var keys, tags := Keys(), Tags();
      var capacity := elements.size;
      var start := (h as int) % capacity;
      var current := start;
      ghost var d := 0;
      while true
        invariant 0 <= d < capacity && current == Slot(start, d, capacity)
        invariant FindFrom(keys, tags, key, tag, start, d) == FindFrom(keys, tags, key, tag, start, 0)
        decreases capacity - d
      {
        var sentinel := sentinels.At(current);
        if !sentinel.filled {
          return capacity;
        }
        if Matches(sentinel, tag) {
          if elements.At(current) == key {
            return current;
          }
        }
        WrapSlot(start, d, capacity);
        current := Wrap(current, capacity);
        d := d + 1;
        if current == start {
          if d < capacity {
            SlotInjective(start, 0, d, capacity);
          }
          return capacity;
        }
      }
    }

    /** `find(key)`: end() exactly when the key is not stored. */
    method Find(key: K) returns (index: nat)
      requires Valid()
      ensures index == Lookup(hash, Keys(), Tags(), key)
      ensures index <= Capacity()
      ensures index < Capacity() <==> key in Stored()
      ensures index < Capacity() ==> Tags()[index].filled && Keys()[index] == key
    {
      var h := hash(key);
      index := FindWith(key, h, ReducedHash(h));
      FindCorrect(hash, Keys(), Tags(), key);
    }

    /** `probe(start)`: the first empty slot among min(10, capacity()) slots from start, or end(). */
    method Probe(start: nat) returns (index: nat)
      requires Valid() && start < Capacity()
      ensures index == ProbeFrom(Tags(), start, 0, ProbeLimit(Capacity()))
    {
      ghost var tags := Tags();
      var capacity := elements.size;
      var spotsVisited := 0;
      var current := start;
      while true
        invariant 0 <= spotsVisited < ProbeLimit(capacity) && current == Slot(start, spotsVisited, capacity)
        invariant ProbeFrom(tags, start, spotsVisited, ProbeLimit(capacity)) == ProbeFrom(tags, start, 0, ProbeLimit(capacity))
        decreases capacity - spotsVisited
      {
        if !sentinels.At(current).filled {
          return current;
        }
        WrapSlot(start, spotsVisited, capacity);
        current, spotsVisited := Wrap(current, capacity), spotsVisited + 1;
        if !(current != start && spotsVisited != ProbeSpots) {
          if spotsVisited < capacity {
            SlotInjective(start, 0, spotsVisited, capacity);
          }
          return capacity;
        }
      }
    }

    /**
     * `emplace(key)`, also `insert(key)`. A stored key is reported at its
     * slot with `false`. Otherwise the first free slot from home is filled
     * and `true` returned; when the probe fails nothing changes and `false`
     * is returned. In both of these cases the location returned is the home
     * slot, not the slot filled.
     */
    method Emplace(key: K) returns (location: nat, inserted: bool)
      requires Valid()
      modifies this, elements.storage, sentinels.storage
      ensures Valid() && Capacity() == old(Capacity())
      ensures location < Capacity()
      ensures old(key in Stored()) ==> !inserted && Keys()[location] == key && Tags()[location].filled
      ensures key !in old(Stored()) ==> location == Home(hash, key, Capacity())
      ensures inserted <==> key !in old(Stored()) && old(FreeSlot(hash, Tags(), key)) < Capacity()
      ensures !inserted ==> Keys() == old(Keys()) && Tags() == old(Tags()) && size == old(size)
      ensures inserted ==>
        var s := old(FreeSlot(hash, Tags(), key));
        && Keys() == old(Keys())[s := key]
        && Tags() == old(Tags())[s := Colonize(old(Tags())[s], ReducedHash(hash(key)))]
        && size == old(size) + 1
      ensures Stored() == if inserted then old(Stored()) + {key} else old(Stored())
    {
      var h := hash(key);
      var tag := ReducedHash(h);
      FindCorrect(hash, Keys(), Tags(), key);
      location := FindWith(key, h, tag);
      if location != elements.size {
        return location, false;
      }
      location := (h as int) % elements.size;
      var free := Probe(location);
      if free == elements.size {
        return location, false;
      }
      Occupy(free, key, tag);
      return location, true;
    }

    /** The end of a successful `emplace`: colonize the free slot, store the key, count it. */
    method Occupy(free: nat, key: K, tag: nat)
      requires Valid() && key !in Stored() && tag == ReducedHash(hash(key))
      requires free == FreeSlot(hash, Tags(), key) < Capacity()
      modifies this, elements.storage, sentinels.storage
      ensures Valid() && Capacity() == old(Capacity())
      ensures Keys() == old(Keys())[free := key]
      ensures Tags() == old(Tags())[free := Colonize(old(Tags())[free], tag)]
      ensures size == old(size) + 1
      ensures Stored() == old(Stored()) + {key}
    {
      InsertKeepsInvariant(hash, Keys(), Tags(), key);
      var colonized := Colonize(sentinels.At(free), tag);
      sentinels.Set(free, colonized);
      elements.Set(free, key);
      size := size + 1;
    }

    /** `insert(value)`: the same as `emplace(value)`. */
    method Insert(key: K) returns (location: nat, inserted: bool)
      requires Valid()
      modifies this, elements.storage, sentinels.storage
      ensures Valid() && Capacity() == old(Capacity())
      ensures location < Capacity()
      ensures old(key in Stored()) ==> !inserted && Keys()[location] == key && Tags()[location].filled
      ensures key !in old(Stored()) ==> location == Home(hash, key, Capacity())
      ensures inserted <==> key !in old(Stored()) && old(FreeSlot(hash, Tags(), key)) < Capacity()
      ensures !inserted ==> Keys() == old(Keys()) && Tags() == old(Tags()) && size == old(size)
      ensures inserted ==>
        var s := old(FreeSlot(hash, Tags(), key));
        && Keys() == old(Keys())[s := key]
        && Tags() == old(Tags())[s := Colonize(old(Tags())[s], ReducedHash(hash(key)))]
        && size == old(size) + 1
      ensures Stored() == if inserted then old(Stored()) + {key} else old(Stored())
    {
      location, inserted := Emplace(key);
    }

    /** `count(key)`: 1 if the key is stored, else 0. */
    method Count(key: K) returns (n: nat)
      requires Valid()
      ensures n == if key in Stored() then 1 else 0
    {
      var index := Find(key);
      if index != elements.size {
        return 1;
      } else {
        return 0;
      }
    }

    /** `contains(key)`. */
    method Contains(key: K) returns (r: bool)
      requires Valid()
      ensures r <==> key in Stored()
    {
      var n := Count(key);
      return n != 0;
    }

    /** `clear()`: resets every sentinel; the keys stay in place and `_size` keeps its value. */
    method Clear()
      requires Valid()
      modifies sentinels.storage
      ensures Valid() && Capacity() == old(Capacity())
      ensures Tags() == seq(Capacity(), _ => EmptySentinel)
      ensures Keys() == old(Keys()) && size == old(size)
      ensures Stored() == {}
    {
      sentinels.Fill(EmptySentinel);
      ClearEmpties(hash, Keys(), elements.size);
    }
  }

  /** `dense_set(count)`: a count of 0 is refused (the constructor throws `domain_error`). */
  method NewDenseSet<K(==,0)>(hash: K -> bv64, count: nat) returns (r: Option<DenseSet<K>>)
    ensures r.None? <==> count == 0
    ensures r.Some? ==> r.value.Valid() && r.value.Capacity() == count && r.value.size == 0
    ensures r.Some? ==> r.value.hash == hash && r.value.Stored() == {} && fresh(r.value)
  {
    if count == 0 {
      return None;
    }
    var s := new DenseSet(hash, count);
    return Some(s);
  }
}
