/**
 The interner's lookup table: open addressing with linear probing over a tag array and a
 parallel array of string ids. A zero tag marks a free slot.
 */
module Probing {
  import opened Bits
  import opened Storage

  const MIN_LOOKUP_SLOTS: nat := 16

  predicate IsPowerOfTwo(n: nat) {
    n == 1 || (n > 1 && n % 2 == 0 && IsPowerOfTwo(n / 2))
  }

  /** Masking with one less than a power of two is the remainder by it. */
  lemma {:induction false} MaskIsRemainder(x: nat, n: nat)
    requires IsPowerOfTwo(n)
    ensures BitAnd(x, n - 1) == x % n
    decreases x
  {
    if n == 1 {
    } else if x == 0 {
    } else {
      MaskIsRemainder(x / 2, n / 2);
      assert (n - 1) / 2 == n / 2 - 1;
      assert (n - 1) % 2 == 1;
      HalveRemainder(x, n / 2);
    }
  }

  lemma HalveRemainder(x: nat, m: nat)
    requires m > 0
    ensures x % (2 * m) == x % 2 + 2 * ((x / 2) % m)
  {
    var q, r := (x / 2) / m, (x / 2) % m;
    assert x == (2 * m) * q + (2 * r + x % 2) by {
      assert x / 2 == m * q + r;
    }
    RemainderOf(x, 2 * m, q, 2 * r + x % 2);
  }

  lemma RemainderOf(x: nat, d: nat, q: nat, r: nat)
    requires d > 0 && x == d * q + r && r < d
    ensures x % d == r
  {
    var z := x / d - q;
    assert d * z == r - x % d by {
      assert x == d * (x / d) + x % d;
    }
    if z != 0 {
      NonzeroMultiple(d, z);
    }
  }

  lemma NonzeroMultiple(d: nat, z: int)
    requires d > 0 && z != 0
    ensures d * z >= d || d * z + d <= 0
  {
    if z > 0 {
      assert d * (z - 1) >= 0;
    } else {
      assert d * (-z - 1) >= 0;
    }
  }

  /** The occupancy tag of a hash: its top byte with the low bit forced on. */
  function TagOf(hash: u32): (tag: u8)
    ensures tag != 0
  {
    var top := hash / 0x100_0000;
    if top % 2 == 0 then top + 1 else top
  }

  /** The slot a probe starts from: the hash reduced below the capacity. */
  function Home(hash: nat, capacity: nat): (slot: nat)
    requires capacity > 0
    ensures slot < capacity
    decreases hash
  {
    if hash < capacity then hash else Home(hash - capacity, capacity)
  }

  lemma {:induction false} HomeIsRemainder(hash: nat, capacity: nat)
    requires capacity > 0
    ensures Home(hash, capacity) == hash % capacity
    decreases hash
  {
    if hash < capacity {
      RemainderOf(hash, capacity, 0, hash);
    } else {
      HomeIsRemainder(hash - capacity, capacity);
      var q, r := (hash - capacity) / capacity, (hash - capacity) % capacity;
      RemainderOf(hash, capacity, q + 1, r);
    }
  }

  /** The slot reached after `d` probe steps from the home slot of `hash`. */
  function Probe(hash: u32, d: nat, capacity: nat): (slot: nat)
    requires d < capacity
    ensures slot < capacity
  {
    var slot := Home(hash, capacity) + d;
    if slot < capacity then slot else slot - capacity
  }

  /** The slot after `slot`, wrapping round. */
  function Next(slot: nat, capacity: nat): (r: nat)
    requires slot < capacity
    ensures r < capacity
  {
    if slot + 1 == capacity then 0 else slot + 1
  }

  /** In a table of power-of-two size, masking finds the home slot and steps to the next. */
  lemma MaskProbes(hash: u32, slot: nat, capacity: nat)
    requires IsPowerOfTwo(capacity) && slot < capacity
    ensures BitAnd(hash, capacity - 1) == Home(hash, capacity)
    ensures BitAnd(slot + 1, capacity - 1) == Next(slot, capacity)
  {
    MaskIsRemainder(hash, capacity);
    HomeIsRemainder(hash, capacity);
    MaskIsRemainder(slot + 1, capacity);
    if slot + 1 == capacity {
      RemainderOf(slot + 1, capacity, 1, 0);
    } else {
      RemainderOf(slot + 1, capacity, 0, slot + 1);
    }
  }

  /** Every slot is within `capacity` probe steps of every home slot. */
  lemma ProbeReaches(hash: u32, slot: nat, capacity: nat) returns (d: nat)
    requires slot < capacity
    ensures d < capacity && Probe(hash, d, capacity) == slot
  {
    var home := Home(hash, capacity);
    d := if home <= slot then slot - home else slot + capacity - home;
  }

  /** Strings interned later do not disturb the table. */
  lemma TableIgnoresLater(tags: seq<u8>, slots: seq<u32>, hashes: seq<u32>, dist: seq<nat>, h: u32)
    requires Table(tags, slots, hashes, dist)
    ensures Table(tags, slots, hashes + [h], dist)
  {
    var hashes' := hashes + [h];
    assert forall i | 0 <= i < |dist| :: hashes'[i] == hashes[i];
  }

  /**
   The lookup table's invariant: id `i` sits `dist[i]` probe steps from its home slot with
   every slot on the way occupied, and an occupied slot belongs to the id stored in it.
   */
  ghost predicate Table(tags: seq<u8>, slots: seq<u32>, hashes: seq<u32>, dist: seq<nat>) {
    && |tags| == |slots|
    && |tags| > 0
    && |dist| <= |hashes|
    && (forall i | 0 <= i < |dist| :: dist[i] < |tags|)
    && (forall i | 0 <= i < |dist| ::
          var p := Probe(hashes[i], dist[i], |tags|);
          tags[p] == TagOf(hashes[i]) && slots[p] == i)
    && (forall i, d {:trigger Probe(hashes[i], d, |tags|)} | 0 <= i < |dist| && 0 <= d < dist[i] ::
          tags[Probe(hashes[i], d, |tags|)] != 0)
    && (forall p | 0 <= p < |tags| && tags[p] != 0 ::
          slots[p] < |dist| && Probe(hashes[slots[p]], dist[slots[p]], |tags|) == p)
  }

  /** A table with more slots than ids has a free slot. */
  lemma FreeSlot(tags: seq<u8>, slots: seq<u32>, hashes: seq<u32>, dist: seq<nat>) returns (p: nat)
    requires Table(tags, slots, hashes, dist) && |dist| < |tags|
    ensures p < |tags| && tags[p] == 0
  {
    if p' :| 0 <= p' < |tags| && tags[p'] == 0 {
      p := p';
    } else {
      Pigeonhole(slots, |dist|);
      assert false;
    }
  }

  lemma {:induction false} Pigeonhole(s: seq<int>, n: nat)
    requires n < |s| && forall q | 0 <= q < |s| :: 0 <= s[q] < n
    ensures exists q, r :: 0 <= q < r < |s| && s[q] == s[r]
    decreases n
  {
    var last := |s| - 1;
    assert s[0] < n && s[last] < n;
    if exists q | 0 <= q < last :: s[q] == s[last] {
      var q :| 0 <= q < last && s[q] == s[last];
    } else {
      // The last entry's value is used once, so it can stand in for the largest one.
      var t := seq(last, i requires 0 <= i < last => if s[i] == n - 1 then s[last] else s[i]);
      assert forall q | 0 <= q < |t| :: 0 <= t[q] < n - 1;
      Pigeonhole(t, n - 1);
      var q, r :| 0 <= q < r < |t| && t[q] == t[r];
      assert s[q] == s[r];
    }
  }
}
