/**
 The kernel's chained hash map (Common/HashMap.c): buckets are doubly linked lists with head and
 tail pointers, allocated when first used. It is a map from keys to queues of values.
 */
module HashMap {

  const HASH_MAP_SIZE := 1024

  // UINT keys and PVOID values, as numbers; NULL is 0
  type UInt = x: int | 0 <= x < 0x1_0000_0000
  const NULL: UInt := 0

  class Pair {
    const key: UInt
    const value: UInt
    var next: Pair?
    var prev: Pair?

    constructor (key: UInt, value: UInt, prev: Pair?)
      ensures this.key == key && this.value == value && this.prev == prev && next == null
    {
      this.key, this.value, this.prev, next := key, value, prev, null;
    }
  }

  class Entry {
    var head: Pair?
    var tail: Pair?

    constructor ()
      ensures head == null && tail == null
    {
      head, tail := null, null;
    }
  }

  // ---------------------------------------------------------------- what a bucket holds

  /** The values stored under `key` in a bucket, oldest first. */
  function Values(pairs: seq<Pair>, key: UInt): seq<UInt>
  {
    if pairs == [] then []
    else (if pairs[0].key == key then [pairs[0].value] else []) + Values(pairs[1..], key)
  }

  /** The (key, value) pairs of a bucket, in order. */
  function Items(pairs: seq<Pair>): (items: seq<(UInt, UInt)>)
    ensures |items| == |pairs|
  {
    seq(|pairs|, i requires 0 <= i < |pairs| => (pairs[i].key, pairs[i].value))
  }

  /** The items of all buckets, bucket by bucket. */
  function AllItems(buckets: seq<seq<Pair>>): seq<(UInt, UInt)>
  {
    if buckets == [] then [] else AllItems(buckets[..|buckets| - 1]) + Items(buckets[|buckets| - 1])
  }

  /** The values a sequence of items gives `key`, in order. */
  function ValuesOf(items: seq<(UInt, UInt)>, key: UInt): seq<UInt>
  {
    if items == [] then []
    else (if items[0].0 == key then [items[0].1] else []) + ValuesOf(items[1..], key)
  }

  lemma {:induction false} ValuesConcat(a: seq<Pair>, b: seq<Pair>, key: UInt)
    ensures Values(a + b, key) == Values(a, key) + Values(b, key)
  {
    var first: seq<UInt> := if a != [] && a[0].key == key then [a[0].value] else [];
    if a == [] {
      assert a + b == b;
      assert [] + Values(b, key) == Values(b, key);
    } else {
      assert (a + b)[1..] == a[1..] + b && (a + b)[0] == a[0];
      ValuesConcat(a[1..], b, key);
      assert first + (Values(a[1..], key) + Values(b, key)) == (first + Values(a[1..], key)) + Values(b, key);
    }
  }

  lemma {:induction false} ValuesAbsent(pairs: seq<Pair>, key: UInt)
    requires forall i :: 0 <= i < |pairs| ==> pairs[i].key != key
    ensures Values(pairs, key) == []
  {
    if pairs != [] {
      ValuesAbsent(pairs[1..], key);
    }
  }

  lemma ValuesFirst(pairs: seq<Pair>, key: UInt, k: nat)
    requires k < |pairs| && pairs[k].key == key
    requires forall i :: 0 <= i < k ==> pairs[i].key != key
    ensures Values(pairs, key) == [pairs[k].value] + Values(pairs[k + 1..], key)
  {
    ValuesAbsent(pairs[..k], key);
    ValuesConcat(pairs[..k], pairs[k..], key);
    assert pairs[..k] + pairs[k..] == pairs;
  }

  lemma ValuesWithout(pairs: seq<Pair>, k: nat, key: UInt)
    requires k < |pairs|
    ensures pairs[k].key != key ==> Values(pairs[..k] + pairs[k + 1..], key) == Values(pairs, key)
    ensures pairs[k].key == key && (forall i :: 0 <= i < k ==> pairs[i].key != key) ==>
      Values(pairs, key) != [] && Values(pairs[..k] + pairs[k + 1..], key) == Values(pairs, key)[1..]
  {
    ValuesConcat(pairs[..k], pairs[k..], key);
    ValuesConcat(pairs[..k], pairs[k + 1..], key);
    assert pairs[..k] + pairs[k..] == pairs && pairs[k..][1..] == pairs[k + 1..];
    if pairs[k].key == key && forall i :: 0 <= i < k ==> pairs[i].key != key {
      ValuesAbsent(pairs[..k], key);
    }
  }

  lemma {:induction false} ItemsValues(pairs: seq<Pair>, key: UInt)
    ensures ValuesOf(Items(pairs), key) == Values(pairs, key)
  {
    if pairs != [] {
      assert Items(pairs)[1..] == Items(pairs[1..]);
      ItemsValues(pairs[1..], key);
    }
  }

  lemma {:induction false} ValuesOfConcat(a: seq<(UInt, UInt)>, b: seq<(UInt, UInt)>, key: UInt)
    ensures ValuesOf(a + b, key) == ValuesOf(a, key) + ValuesOf(b, key)
  {
    var first: seq<UInt> := if a != [] && a[0].0 == key then [a[0].1] else [];
    if a == [] {
      assert a + b == b;
      assert [] + ValuesOf(b, key) == ValuesOf(b, key);
    } else {
      assert (a + b)[1..] == a[1..] + b && (a + b)[0] == a[0];
      ValuesOfConcat(a[1..], b, key);
      assert first + (ValuesOf(a[1..], key) + ValuesOf(b, key)) == (first + ValuesOf(a[1..], key)) + ValuesOf(b, key);
    }
  }

  /** What a table of buckets holds for a key. */
  function QueueIn(buckets: seq<seq<Pair>>, key: UInt): seq<UInt>
  {
    if |buckets| == HASH_MAP_SIZE then Values(buckets[key % HASH_MAP_SIZE], key) else []
  }

  /** A pair put at the end of its bucket is appended to its key's queue; no other queue changes. */
  lemma QueueAfterInsert(buckets: seq<seq<Pair>>, pair: Pair, key: UInt)
    requires |buckets| == HASH_MAP_SIZE
    ensures var hash := pair.key % HASH_MAP_SIZE;
      QueueIn(buckets[hash := buckets[hash] + [pair]], key) == QueueIn(buckets, key) + if key == pair.key then [pair.value] else []
  {
    var hash := pair.key % HASH_MAP_SIZE;
    if key % HASH_MAP_SIZE == hash {
      ValuesConcat(buckets[hash], [pair], key);
    }
  }

  /** Taking out the first pair with its key drops the head of that key's queue; no other queue changes. */
  lemma QueueAfterRemove(buckets: seq<seq<Pair>>, hash: nat, at: nat, key: UInt)
    requires |buckets| == HASH_MAP_SIZE && hash < HASH_MAP_SIZE && at < |buckets[hash]|
    requires buckets[hash][at].key % HASH_MAP_SIZE == hash
    requires forall i :: 0 <= i < at ==> buckets[hash][i].key != buckets[hash][at].key
    ensures var bucket := buckets[hash];
      var queue := QueueIn(buckets[hash := bucket[..at] + bucket[at + 1..]], key);
      if key != bucket[at].key then queue == QueueIn(buckets, key)
      else QueueIn(buckets, key) != [] && queue == QueueIn(buckets, key)[1..]
  {
    if key % HASH_MAP_SIZE == hash {
      ValuesWithout(buckets[hash], at, key);
    }
  }

  // ---------------------------------------------------------------- a doubly linked bucket

  /** `pairs`, in order, is what following `next` from head, and `prev` from tail, visits. */
  ghost predicate Linked(head: Pair?, tail: Pair?, pairs: seq<Pair>)
    reads pairs
  {
    && head == (if pairs == [] then null else pairs[0])
    && tail == (if pairs == [] then null else pairs[|pairs| - 1])
    && (forall i {:trigger pairs[i].prev} :: 0 <= i < |pairs| ==> pairs[i].prev == if i == 0 then null else pairs[i - 1])
    && (forall i {:trigger pairs[i].next} :: 0 <= i < |pairs| ==> pairs[i].next == if i == |pairs| - 1 then null else pairs[i + 1])
    && (forall i, j :: 0 <= i < j < |pairs| ==> pairs[i] != pairs[j])
  }

  /** The pointer updates of InsertHashMap. */
  method LinkLast(entry: Entry, pair: Pair, ghost pairs: seq<Pair>)
    requires Linked(entry.head, entry.tail, pairs)
    requires pair !in pairs && pair.next == null && pair.prev == entry.tail
    modifies entry, pairs
    ensures Linked(entry.head, entry.tail, pairs + [pair])
  {
    if entry.head == null {
      entry.head := pair;
    }
    if entry.tail != null {
      entry.tail.next := pair;
    }
    entry.tail := pair;
    ghost var all := pairs + [pair];
    forall i | 0 <= i < |all|
      ensures all[i].prev == if i == 0 then null else all[i - 1]
      ensures all[i].next == if i == |all| - 1 then null else all[i + 1]
    {
      assert i < |pairs| ==> all[i] == pairs[i] && old(pairs[i].prev) == if i == 0 then null else pairs[i - 1];
      assert i < |pairs| ==> old(pairs[i].next) == if i == |pairs| - 1 then null else pairs[i + 1];
      assert 0 < i ==> all[i - 1] == pairs[i - 1];
    }
  }

  /** The pointer updates of RemoveHashMap. */
  method Unlink(entry: Entry, pair: Pair, ghost pairs: seq<Pair>, ghost k: nat)
    requires Linked(entry.head, entry.tail, pairs)
    requires k < |pairs| && pair == pairs[k]
    modifies entry, pairs
    ensures Linked(entry.head, entry.tail, pairs[..k] + pairs[k + 1..])
  {
    assert pairs[k].prev == if k == 0 then null else pairs[k - 1];
    assert pairs[k].next == if k == |pairs| - 1 then null else pairs[k + 1];
    if pair.next != null {
      pair.next.prev := pair.prev;
    }
    if pair.prev != null {
      pair.prev.next := pair.next;
    }
    if entry.head == pair {
      entry.head := pair.next;
    }
    if entry.tail == pair {
      entry.tail := pair.prev;
    }
    ghost var rest := pairs[..k] + pairs[k + 1..];
    forall i | 0 <= i < |rest|
      ensures rest[i].prev == if i == 0 then null else rest[i - 1]
      ensures rest[i].next == if i == |rest| - 1 then null else rest[i + 1]
    {
      var j := if i < k then i else i + 1;
      assert rest[i] == pairs[j];
      assert old(pairs[j].prev) == if j == 0 then null else pairs[j - 1];
      assert old(pairs[j].next) == if j == |pairs| - 1 then null else pairs[j + 1];
      assert 0 < i ==> rest[i - 1] == if i - 1 < k then pairs[i - 1] else pairs[i];
    }
  }

  // ---------------------------------------------------------------- the map

  lemma QueuesAfterInsert(buckets: seq<seq<Pair>>, pair: Pair)
    requires |buckets| == HASH_MAP_SIZE
    ensures forall k: UInt ::
      QueueIn(buckets[pair.key % HASH_MAP_SIZE := buckets[pair.key % HASH_MAP_SIZE] + [pair]], k)
      == QueueIn(buckets, k) + if k == pair.key then [pair.value] else []
  {
    hide QueueIn;
    forall k: UInt
      ensures QueueIn(buckets[pair.key % HASH_MAP_SIZE := buckets[pair.key % HASH_MAP_SIZE] + [pair]], k)
           == QueueIn(buckets, k) + if k == pair.key then [pair.value] else []
    {
      QueueAfterInsert(buckets, pair, k);
    }
  }

  class HashMap {
    // the `map` array of the source
    const slots: array<Entry?>
    /** The pairs of each bucket, in list order. */
    ghost var buckets: seq<seq<Pair>>
    ghost var Repr: set<object>

    ghost predicate Shape()
      reads this
    {
      && slots.Length == HASH_MAP_SIZE == |buckets|
      && this in Repr && slots in Repr
      && (forall i, j :: 0 <= i < HASH_MAP_SIZE && 0 <= j < |buckets[i]| ==>
            buckets[i][j] in Repr && buckets[i][j].key % HASH_MAP_SIZE == i)
    }

    ghost predicate Valid()
      reads this, Repr
      ensures Valid() ==> this in Repr
    {
      && Shape()
      && (forall i :: 0 <= i < HASH_MAP_SIZE && slots[i] == null ==> buckets[i] == [])
      && (forall i :: 0 <= i < HASH_MAP_SIZE && slots[i] != null ==>
            slots[i] in Repr && Linked(slots[i].head, slots[i].tail, buckets[i]))
      && (forall i, j :: 0 <= i < j < HASH_MAP_SIZE && slots[i] != null ==> slots[i] != slots[j])
    }

    /** What the map holds for a key: the values inserted and not yet removed, oldest first. */
    ghost function Queue(key: UInt): seq<UInt>
      reads this
    {
      QueueIn(buckets, key)
    }

    // InitialiseHashMap
    constructor ()
      ensures Valid() && fresh(Repr)
      ensures forall key :: Queue(key) == []
    {
      slots := new Entry?[HASH_MAP_SIZE](_ => null);
      buckets := seq(HASH_MAP_SIZE, _ => []);
      new;
      Repr := {this, slots};
    }

    /** Adds an empty entry for a bucket that has none. */
    method AddEntry(hash: nat)
      requires Valid() && hash < HASH_MAP_SIZE && slots[hash] == null
      modifies this`Repr, slots
      ensures Valid() && fresh(Repr - old(Repr)) && slots[hash] != null
    {
      var entry := new Entry();
      slots[hash] := entry;
      Repr := Repr + {entry};
    }

    /** Adds a pair at the end of its bucket. */
    method AddPair(key: UInt, value: UInt)
      requires Valid() && slots[key % HASH_MAP_SIZE] != null
      modifies Repr
      ensures Valid() && fresh(Repr - old(Repr))
      ensures forall k :: Queue(k) == old(Queue(k)) + if k == key then [value] else []
    {
      hide QueueIn, Linked;
      var hash := key % HASH_MAP_SIZE;
      var entry := slots[hash];
      var pair := new Pair(key, value, entry.tail);
      QueuesAfterInsert(buckets, pair);
      LinkLast(entry, pair, buckets[hash]);
      buckets := buckets[hash := buckets[hash] + [pair]];
      Repr := Repr + {pair};
    }

    // InsertHashMap; the flags say whether its allocations of an entry and of a pair succeed
    method Insert(key: UInt, value: UInt, entryMemory: bool, pairMemory: bool) returns (ok: bool)
      requires Valid()
      modifies Repr
      ensures Valid() && fresh(Repr - old(Repr))
      ensures ok <==> pairMemory && (entryMemory || old(slots[key % HASH_MAP_SIZE]) != null)
      ensures ok ==> forall k :: Queue(k) == old(Queue(k)) + if k == key then [value] else []
      ensures !ok ==> buckets == old(buckets)
    {
      var hash := key % HASH_MAP_SIZE;
      if slots[hash] == null {
        if !entryMemory {
          return false;
        }
        AddEntry(hash);
      }
      if !pairMemory {
        return false;
      }
      AddPair(key, value);
      return true;
    }

    /** The search of FindHashMap: the first pair of the bucket with this key. */
    method FindPair(key: UInt) returns (pair: Pair?, ghost k: nat)
      requires Valid()
      ensures pair == null <==> Queue(key) == []
      ensures pair != null ==>
        && k < |buckets[key % HASH_MAP_SIZE]| && pair == buckets[key % HASH_MAP_SIZE][k]
        && pair.key == key && slots[key % HASH_MAP_SIZE] != null
        && pair.value == Queue(key)[0]
        && forall i :: 0 <= i < k ==> buckets[key % HASH_MAP_SIZE][i].key != key
    {
      var hash := key % HASH_MAP_SIZE;
      ghost var bucket := buckets[hash];
      k := 0;
      if slots[hash] == null {
        return null, k;
      }
      pair := slots[hash].head;
      while pair != null
        invariant 0 <= k <= |bucket|
        invariant pair == if k < |bucket| then bucket[k] else null
        invariant forall i :: 0 <= i < k ==> bucket[i].key != key
        decreases |bucket| - k
      {
        if pair.key == key {
          ValuesFirst(bucket, key, k);
          return pair, k;
        }
        assert bucket[k].next == if k == |bucket| - 1 then null else bucket[k + 1];
        pair := pair.next;
        k := k + 1;
      }
      ValuesAbsent(bucket, key);
    }

    // FindHashMapValue
    method FindValue(key: UInt) returns (value: UInt)
      requires Valid()
      ensures value == if Queue(key) == [] then NULL else Queue(key)[0]
    {
      var pair, _ := FindPair(key);
      if pair == null {
        return NULL;
      }
      return pair.value;
    }

    // RemoveHashMap
    method Remove(key: UInt) returns (ok: bool)
      requires Valid()
      modifies Repr
      ensures Valid() && Repr == old(Repr)
      ensures ok <==> old(Queue(key)) != []
      ensures ok ==> forall k :: Queue(k) == if k == key then old(Queue(k))[1..] else old(Queue(k))
      ensures !ok ==> buckets == old(buckets)
    {
      hide Linked;
      var hash := key % HASH_MAP_SIZE;
      var pair, at := FindPair(key);
      if pair == null {
        return false;
      }
      Unlink(slots[hash], pair, buckets[hash], at);
      buckets := buckets[hash := buckets[hash][..at] + buckets[hash][at + 1..]];
      forall k: UInt
        ensures Queue(k) == if k == key then old(Queue(k))[1..] else old(Queue(k))
      {
        QueueAfterRemove(old(buckets), hash, at, k);
      }
      return true;
    }

    // IterateHashMap: what the visitor is called with, in order
    method Iterate() returns (visited: seq<(UInt, UInt)>)
      requires Valid()
      ensures visited == AllItems(buckets)
    {
      visited := [];
      for i := 0 to HASH_MAP_SIZE
        invariant visited == AllItems(buckets[..i])
      {
        ghost var bucket := buckets[i];
        assert buckets[..i + 1][..i] == buckets[..i];
        if slots[i] != null {
          var pair := slots[i].head;
          ghost var j := 0;
          while pair != null
            invariant 0 <= j <= |bucket|
            invariant pair == if j < |bucket| then bucket[j] else null
            invariant visited == AllItems(buckets[..i]) + Items(bucket)[..j]
            decreases |bucket| - j
          {
            assert bucket[j].next == if j == |bucket| - 1 then null else bucket[j + 1];
            assert Items(bucket)[..j + 1] == Items(bucket)[..j] + [(pair.key, pair.value)];
            visited := visited + [(pair.key, pair.value)];
            pair := pair.next;
            j := j + 1;
          }
        }
      }
      assert buckets[..HASH_MAP_SIZE] == buckets;
    }

    /** The iteration visits each stored pair exactly once, the values of a key oldest first. */
    lemma IterateVisitsAll(key: UInt)
      requires Valid()
      ensures ValuesOf(AllItems(buckets), key) == Queue(key)
    {
      assert buckets[..HASH_MAP_SIZE] == buckets;
      VisitsUpTo(HASH_MAP_SIZE, key);
    }

    lemma {:induction false} VisitsUpTo(n: nat, key: UInt)
      requires Shape() && n <= HASH_MAP_SIZE
      ensures ValuesOf(AllItems(buckets[..n]), key)
           == if key % HASH_MAP_SIZE < n then Values(buckets[key % HASH_MAP_SIZE], key) else []
    {
      if n > 0 {
        VisitsUpTo(n - 1, key);
        assert buckets[..n][..n - 1] == buckets[..n - 1];
        ValuesOfConcat(AllItems(buckets[..n - 1]), Items(buckets[n - 1]), key);
        ItemsValues(buckets[n - 1], key);
        if key % HASH_MAP_SIZE != n - 1 {
          ValuesAbsent(buckets[n - 1], key);
        }
      }
    }
  }
}
