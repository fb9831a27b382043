/** The append-only string interner. */
module StringsPool {
  import opened Wrappers
  import opened Storage
  import opened Probing

  /** Interning on a plain list: an equal string's position, or one past the end. */
  function IndexIn(strings: seq<Text>, s: Text): (i: nat)
    ensures i <= |strings|
    ensures s in strings ==> i < |strings| && strings[i] == s && s !in strings[..i]
    ensures s !in strings ==> i == |strings|
  {
    if strings == [] || strings[0] == s then 0 else 1 + IndexIn(strings[1..], s)
  }

  lemma IndexOfDistinct(strings: seq<Text>, i: nat)
    requires Distinct(strings) && i < |strings|
    ensures IndexIn(strings, strings[i]) == i
  {
    assert strings[i] in strings;
    var j := IndexIn(strings, strings[i]);
    forall m | 0 <= m < j
      ensures strings[m] != strings[i]
    {
      assert strings[..j][m] == strings[m];
    }
  }

  function Interned(strings: seq<Text>, s: Text): seq<Text> {
    if s in strings then strings else strings + [s]
  }

  function InternedAll(strings: seq<Text>, texts: seq<Text>): seq<Text> {
    if texts == [] then strings
    else Interned(InternedAll(strings, texts[..|texts| - 1]), texts[|texts| - 1])
  }

  /** Interning keeps a list of distinct strings distinct and never moves one. */
  lemma {:induction false} InternedKeepsHandles(strings: seq<Text>, texts: seq<Text>)
    requires Distinct(strings)
    ensures Distinct(InternedAll(strings, texts))
    ensures strings <= InternedAll(strings, texts)
    ensures forall t :: t in InternedAll(strings, texts) <==> t in strings || t in texts
  {
    if texts != [] {
      InternedKeepsHandles(strings, texts[..|texts| - 1]);
      assert texts == texts[..|texts| - 1] + [texts[|texts| - 1]];
    }
  }

  lemma {:induction false} InternedAllSplits(strings: seq<Text>, a: seq<Text>, b: seq<Text>)
    ensures InternedAll(strings, a + b) == InternedAll(InternedAll(strings, a), b)
    decreases |b|
  {
    if b == [] {
      assert a + b == a;
    } else {
      var last := |b| - 1;
      assert (a + b)[..|a + b| - 1] == a + b[..last];
      InternedAllSplits(strings, a, b[..last]);
    }
  }

  ghost function TotalLength(strings: seq<Text>): nat {
    if strings == [] then 0
    else TotalLength(strings[..|strings| - 1]) + |strings[|strings| - 1]|
  }

  ghost function TotalBytes(texts: set<Text>): nat {
    if texts == {} then 0
    else
      var t :| t in texts;
      |t| + TotalBytes(texts - {t})
  }

  /** The pool can hold all of `texts` at once. */
  ghost predicate FitsPool(texts: set<Text>) {
    |texts| <= U32_MAX && TotalBytes(texts) <= U32_MAX
  }

  lemma {:induction false} TotalBytesWithout(texts: set<Text>, t: Text)
    requires t in texts
    ensures TotalBytes(texts) == |t| + TotalBytes(texts - {t})
    decreases |texts|
  {
    var u :| u in texts && TotalBytes(texts) == |u| + TotalBytes(texts - {u});
    if u != t {
      TotalBytesWithout(texts - {u}, t);
      TotalBytesWithout(texts - {t}, u);
      assert texts - {u} - {t} == texts - {t} - {u};
    }
  }

  lemma {:induction false} DistinctWithin(strings: seq<Text>, texts: set<Text>)
    requires Distinct(strings) && forall s <- strings :: s in texts
    ensures |strings| <= |texts| && TotalLength(strings) <= TotalBytes(texts)
  {
    if strings != [] {
      var last := strings[|strings| - 1];
      TotalBytesWithout(texts, last);
      DistinctWithin(strings[..|strings| - 1], texts - {last});
    }
  }

  lemma DistinctExtended(strings: seq<Text>, t: Text)
    requires Distinct(strings) && t !in strings
    ensures Distinct(strings + [t])
  {
  }

  /** A pool whose strings all lie in a set that fits has room for any other member of it. */
  lemma RoomFor(strings: seq<Text>, texts: set<Text>, t: Text)
    requires Distinct(strings) && (forall s <- strings :: s in texts)
    requires FitsPool(texts) && t in texts && t !in strings
    ensures |strings| < U32_MAX && TotalLength(strings) + |t| <= U32_MAX
  {
    DistinctWithin(strings + [t], texts);
    assert (strings + [t])[..|strings|] == strings;
  }

  /** Where one interned string lies in the buffer. */
  datatype Range = Range(start: u32, length: u32) {
    function End(): nat {
      start + length
    }
  }

  /** Entries are laid end to end and cover the whole buffer. */
  ghost predicate Contiguous(ranges: seq<Range>, length: nat) {
    && (forall i | 0 <= i < |ranges| :: ranges[i].End() <= length)
    && (forall i, j | 0 <= i && j == i + 1 < |ranges| :: ranges[j].start == ranges[i].End())
    && (if |ranges| == 0 then length == 0
        else ranges[0].start == 0 && ranges[|ranges| - 1].End() == length)
  }

  function Slice(buffer: seq<u8>, range: Range): Text
    requires range.End() <= |buffer|
  {
    buffer[range.start..range.End()]
  }

  ghost function Listed(buffer: seq<u8>, ranges: seq<Range>): (r: seq<Text>)
    requires Contiguous(ranges, |buffer|)
    ensures |r| == |ranges|
  {
    seq(|ranges|, i requires 0 <= i < |ranges| => Slice(buffer, ranges[i]))
  }

  lemma {:induction false} EndsBefore(ranges: seq<Range>, length: nat, i: nat, k: nat)
    requires Contiguous(ranges, length) && i < k < |ranges|
    ensures ranges[i].End() <= ranges[k].start
    decreases k - i
  {
    assert ranges[i + 1].start == ranges[i].End();
    if i + 1 < k {
      EndsBefore(ranges, length, i + 1, k);
    }
  }

  lemma {:induction false} ListedLength(buffer: seq<u8>, ranges: seq<Range>)
    requires Contiguous(ranges, |buffer|)
    ensures TotalLength(Listed(buffer, ranges)) == |buffer|
    decreases |ranges|
  {
    if ranges != [] {
      var k := |ranges| - 1;
      CutsEntries(buffer, ranges, k);
      ListedLength(buffer[..ranges[k].start], ranges[..k]);
      assert ranges[k].End() == |buffer|;
    }
  }

  lemma AppendsRange(ranges: seq<Range>, length: u32, more: nat)
    requires Contiguous(ranges, length) && length + more <= U32_MAX
    ensures Contiguous(ranges + [Range(length, more)], length + more)
  {
    var ranges' := ranges + [Range(length, more)];
    forall i | 0 <= i < |ranges'|
      ensures ranges'[i].End() <= length + more
    {
      if i < |ranges| {
        assert ranges'[i] == ranges[i];
      }
    }
    forall i, j | 0 <= i && j == i + 1 < |ranges'|
      ensures ranges'[j].start == ranges'[i].End()
    {
      assert ranges'[i] == ranges[i];
    }
  }

  lemma RangesEnd(ranges: seq<Range>, length: nat)
    requires Contiguous(ranges, length)
    ensures forall i | 0 <= i < |ranges| :: ranges[i].End() <= length
  {
  }

  lemma SliceStays(buffer: seq<u8>, more: seq<u8>, range: Range)
    requires range.End() <= |buffer|
    ensures Slice(buffer + more, range) == Slice(buffer, range)
  {
  }

  lemma SliceLast(buffer: seq<u8>, text: Text)
    requires |buffer| + |text| <= U32_MAX
    ensures Slice(buffer + text, Range(|buffer|, |text|)) == text
  {
  }

  /** Writing a string at the end of the buffer appends it to the list. */
  lemma AppendsEntry(buffer: seq<u8>, ranges: seq<Range>, text: Text)
    requires Contiguous(ranges, |buffer|) && |buffer| + |text| <= U32_MAX
    ensures var ranges' := ranges + [Range(|buffer|, |text|)];
            && Contiguous(ranges', |buffer + text|)
            && Listed(buffer + text, ranges') == Listed(buffer, ranges) + [text]
  {
    hide Contiguous, Slice;
    AppendsRange(ranges, |buffer|, |text|);
    RangesEnd(ranges, |buffer|);
    SliceLast(buffer, text);
    var buffer', ranges' := buffer + text, ranges + [Range(|buffer|, |text|)];
    forall i | 0 <= i < |ranges|
      ensures Listed(buffer', ranges')[i] == Listed(buffer, ranges)[i]
    {
      SliceStays(buffer, text, ranges[i]);
    }
    assert Listed(buffer', ranges')[|ranges|] == text;
    assert Listed(buffer', ranges') == Listed(buffer, ranges) + [text];
  }

  /** Cutting the buffer where entry `k` starts keeps exactly the first `k` strings. */
  lemma CutsEntries(buffer: seq<u8>, ranges: seq<Range>, k: nat)
    requires Contiguous(ranges, |buffer|) && k < |ranges|
    ensures ranges[k].start <= |buffer|
    ensures Contiguous(ranges[..k], ranges[k].start)
    ensures Listed(buffer[..ranges[k].start], ranges[..k]) == Listed(buffer, ranges)[..k]
  {
    assert ranges[k].End() <= |buffer|;
    forall i | 0 <= i < k
      ensures ranges[i].End() <= ranges[k].start
    {
      EndsBefore(ranges, |buffer|, i, k);
    }
    var cut := buffer[..ranges[k].start];
    assert forall i | 0 <= i < k :: Slice(cut, ranges[i]) == Slice(buffer, ranges[i]);
  }

  /** A free slot `k` steps from home was reached past every id with that hash. */
  lemma MissPassesAll(tags: seq<u8>, slots: seq<u32>, hashes: seq<u32>, dist: seq<nat>, h: u32, k: nat)
    requires Table(tags, slots, hashes, dist) && k < |tags| && tags[Probe(h, k, |tags|)] == 0
    ensures forall i | 0 <= i < |dist| && hashes[i] == h :: dist[i] < k && slots[Probe(h, dist[i], |tags|)] == i
  {
    forall i | 0 <= i < |dist| && hashes[i] == h
      ensures dist[i] < k && slots[Probe(h, dist[i], |tags|)] == i
    {
      var p := Probe(hashes[i], dist[i], |tags|);
      assert tags[p] == TagOf(hashes[i]) && slots[p] == i;
      assert tags[Probe(hashes[i], k, |tags|)] == 0;
    }
  }

  /** An occupied slot holds an id whose hash has that slot's tag. */
  lemma OccupiedSlots(tags: seq<u8>, slots: seq<u32>, hashes: seq<u32>, dist: seq<nat>)
    requires Table(tags, slots, hashes, dist)
    ensures forall p | 0 <= p < |tags| && tags[p] != 0 ::
              slots[p] < |dist| && tags[p] == TagOf(hashes[slots[p]])
  {
    forall p | 0 <= p < |tags| && tags[p] != 0
      ensures slots[p] < |dist| && tags[p] == TagOf(hashes[slots[p]])
    {
      assert p == Probe(hashes[slots[p]], dist[slots[p]], |tags|);
    }
  }

  class StringsPool {
    const hash: Text -> u32
    var buffer: seq<u8>
    var ranges: seq<Range>
    var hashes: seq<u32>
    var tags: array<u8>
    var slots: array<u32>
    /** How many probe steps from its home slot each id sits. */
    ghost var dist: seq<nat>

    ghost predicate Entries()
      reads this
    {
      && |ranges| == |hashes| <= U32_MAX
      && |buffer| <= U32_MAX
      && Contiguous(ranges, |buffer|)
    }

    /** The interned strings, by handle. */
    ghost function List(): seq<Text>
      reads this
    {
      if Contiguous(ranges, |buffer|) then Listed(buffer, ranges) else []
    }

    /** Distinct strings, each stored with its own hash. */
    ghost predicate Named()
      reads this
    {
      && Entries()
      && Distinct(List())
      && forall i | 0 <= i < |ranges| :: hashes[i] == hash(List()[i])
    }

    /** The lookup table finds the first `n` strings and stays under half full. */
    ghost predicate Indexed(n: nat)
      reads this, tags, slots
    {
      && tags as object != slots as object
      && tags.Length == slots.Length
      && |dist| == n
      && (tags.Length == 0 ==> n == 0)
      && (tags.Length > 0 ==>
            && tags.Length >= MIN_LOOKUP_SLOTS
            && IsPowerOfTwo(tags.Length)
            && 2 * n < tags.Length
            && Table(tags[..], slots[..], hashes, dist))
    }

    ghost predicate Valid()
      reads this, tags, slots
    {
      Named() && Indexed(|ranges|)
    }

    constructor (hash: Text -> u32)
      ensures Valid() && fresh(tags) && fresh(slots)
      ensures List() == [] && this.hash == hash
    {
      this.hash := hash;
      buffer, ranges, hashes := [], [], [];
      tags := new u8[0];
      slots := new u32[0];
      dist := [];
    }

    function Len(): nat
      reads this
    {
      |ranges|
    }

    lemma LenCounts()
      requires Valid()
      ensures Len() == |List()| && |List()| <= U32_MAX && Distinct(List())
    {
    }

    /** Resolves a handle, or answers `None` past the end. */
    function Get(id: u32): (r: Option<Text>)
      requires Entries()
      reads this
      ensures r.Some? <==> id < |List()|
      ensures r.Some? ==> r.value == List()[id]
    {
      if id < |ranges| then Some(Slice(buffer, ranges[id])) else None
    }

    /** Looks `text` up by its hash; a miss means the pool does not hold it. */
    method Find(text: Text, h: u32) returns (r: Option<u32>)
      requires Valid() && h == hash(text)
      ensures r.Some? ==> r.value < |List()| && List()[r.value] == text
      ensures r.None? ==> text !in List()
    {
      if tags.Length == 0 {
        return None;
      }
      ghost var free := FreeSlot(tags[..], slots[..], hashes, dist);
      ghost var reach := ProbeReaches(h, free, tags.Length);
      OccupiedSlots(tags[..], slots[..], hashes, dist);
      ghost var k;
      r, k := ProbeFor(text, h, tags[..], slots[..], reach);
      if r.None? {
        MissPassesAll(tags[..], slots[..], hashes, dist, h, k);
        assert forall i | 0 <= i < |List()| && hashes[i] == h :: List()[i] != text;
      }
    }

    /** The probe loop of `Find`, from the home slot of `h` up to a free slot `reach` steps away. */
    method ProbeFor(text: Text, h: u32, ghost ts: seq<u8>, ghost ss: seq<u32>, ghost reach: nat)
      returns (r: Option<u32>, ghost k: nat)
      requires Named() && h == hash(text)
      requires ts == tags[..] && ss == slots[..] && |ts| == |ss|
      requires forall p | 0 <= p < |ts| && ts[p] != 0 :: ss[p] < |ranges| && ts[p] == TagOf(hashes[ss[p]])
      requires reach < |ts| && ts[Probe(h, reach, |ts|)] == 0
      ensures r.Some? ==> r.value < |List()| && List()[r.value] == text
      ensures r.None? ==>
                && k < |ts| && ts[Probe(h, k, |ts|)] == 0
                && forall d | 0 <= d < k ::
                     var id := ss[Probe(h, d, |ts|)];
                     id < |List()| && List()[id] != text
    {
      hide Distinct, TagOf;
      var tag := TagOf(h);
      var slot := Home(h, tags.Length);
      ghost var strings := List();
      k := 0;
      while true
        invariant 0 <= k <= reach && slot == Probe(h, k, |ts|)
        invariant forall d | 0 <= d < k ::
                    var id := ss[Probe(h, d, |ts|)];
                    id < |strings| && strings[id] != text
        decreases reach - k
      {
        var slotTag := tags[slot];
        assert slotTag == ts[slot] && slots[slot] == ss[slot];
        if slotTag == 0 {
          return None, k;
        }
        if slotTag == tag {
          var id := slots[slot];
          if Slice(buffer, ranges[id]) == text {
            return Some(id), k;
          }
        }
        slot := Next(slot, tags.Length);
        k := k + 1;
      }
    }

    /** Interns `text`: the handle of an equal string, or a new one past all others. */
    method Intern(text: Text) returns (id: u32)
      requires Valid()
      requires text !in List() ==> |List()| < U32_MAX && |buffer| + |text| <= U32_MAX
      modifies this, tags, slots
      ensures Valid()
      ensures (tags == old(tags) || fresh(tags)) && (slots == old(slots) || fresh(slots))
      ensures List() == Interned(old(List()), text)
      ensures id == IndexIn(old(List()), text)
    {
      hide Valid, Named, Indexed, Entries, List, IndexIn, Table;
      LenCounts();
      var h := hash(text);
      var found := Find(text, h);
      if found.Some? {
        IndexOfDistinct(List(), found.value);
        return found.value;
      }
      id := |ranges|;
      Append(text, h);
      IndexLast(h);
    }

    /** Writes a string the pool does not hold after all others, not yet in the lookup table. */
    method Append(text: Text, h: u32)
      requires Valid() && h == hash(text) && text !in List()
      requires |List()| < U32_MAX && |buffer| + |text| <= U32_MAX
      modifies this`buffer, this`ranges, this`hashes
      ensures |ranges| == |old(ranges)| + 1 == |hashes| && hashes[|ranges| - 1] == h
      ensures Named() && Indexed(|ranges| - 1)
      ensures List() == old(List()) + [text]
    {
      hide Table, Contiguous, Listed, Distinct;
      AppendsEntry(buffer, ranges, text);
      DistinctExtended(List(), text);
      if tags.Length > 0 {
        TableIgnoresLater(tags[..], slots[..], hashes, dist, h);
      }
      var start := |buffer|;
      buffer := buffer + text;
      ranges := ranges + [Range(start, |text|)];
      hashes := hashes + [h];
    }

    /** A pool whose strings all lie in a set that fits has room for any member of it. */
    lemma HasRoom(text: Text, texts: set<Text>)
      requires Valid() && FitsPool(texts) && text in texts && forall s <- List() :: s in texts
      ensures text !in List() ==> |List()| < U32_MAX && |buffer| + |text| <= U32_MAX
    {
      ListedLength(buffer, ranges);
      if text !in List() {
        RoomFor(List(), texts, text);
      }
    }

    /** Enters the newest string into the lookup table, growing the table when it fills up. */
    method IndexLast(h: u32)
      requires Named() && |ranges| > 0 && hashes[|ranges| - 1] == h && Indexed(|ranges| - 1)
      modifies this`tags, this`slots, this`dist, tags, slots
      ensures Valid()
      ensures (tags == old(tags) || fresh(tags)) && (slots == old(slots) || fresh(slots))
      ensures List() == old(List())
    {
      hide Table, Contiguous, Listed, Distinct;
      if |ranges| * 2 >= tags.Length {
        RebuildLookup(if tags.Length * 2 > MIN_LOOKUP_SLOTS then tags.Length * 2 else MIN_LOOKUP_SLOTS);
      } else {
        ghost var d := InsertSlot(tags, slots, h, |ranges| - 1, hashes, dist);
        dist := dist + [d];
        assert Indexed(|ranges|);
      }
    }

    /** Drops every string interned at or after `length`. */
    method Truncate(length: nat)
      requires Valid()
      modifies this, tags, slots
      ensures Valid()
      ensures (tags == old(tags) || fresh(tags)) && (slots == old(slots) || fresh(slots))
      ensures List() == if length < |old(List())| then old(List())[..length] else old(List())
    {
      if length >= |ranges| {
        return;
      }
      var end := ranges[length].start;
      CutsEntries(buffer, ranges, length);
      ranges := ranges[..length];
      hashes := hashes[..length];
      buffer := buffer[..end];
      RebuildLookup(tags.Length);
    }

    /** Re-enters every string's hash into a fresh table. */
    method RebuildLookup(wanted: nat)
      requires Named()
      requires IsPowerOfTwo(wanted) && wanted >= MIN_LOOKUP_SLOTS && 2 * |ranges| < wanted
      modifies this`tags, this`slots, this`dist
      ensures Valid() && fresh(tags) && fresh(slots)
      ensures tags.Length == wanted
    {
      var capacity := if wanted > MIN_LOOKUP_SLOTS then wanted else MIN_LOOKUP_SLOTS;
      var newTags := new u8[capacity](_ => 0);
      var newSlots := new u32[capacity](_ => 0);
      ghost var newDist: seq<nat> := [];
      var index := 0;
      while index < |hashes|
        invariant 0 <= index <= |hashes| && |newDist| == index
        invariant Table(newTags[..], newSlots[..], hashes, newDist)
      {
        ghost var d := InsertSlot(newTags, newSlots, hashes[index], index, hashes, newDist);
        newDist := newDist + [d];
        index := index + 1;
      }
      tags, slots, dist := newTags, newSlots, newDist;
    }
  }

  /** Places `id` in the first free slot at or after the home slot of `hash`. */
  method InsertSlot(tags: array<u8>, slots: array<u32>, hash: u32, id: u32,
                    ghost hashes: seq<u32>, ghost dist: seq<nat>)
    returns (ghost d: nat)
    requires tags as object != slots as object
    requires Table(tags[..], slots[..], hashes, dist)
    requires |dist| == id < |hashes| && hashes[id] == hash && id < tags.Length
    modifies tags, slots
    ensures d < tags.Length && Table(tags[..], slots[..], hashes, dist + [d])
  {
    ghost var free := FreeSlot(tags[..], slots[..], hashes, dist);
    ghost var reach := ProbeReaches(hash, free, tags.Length);
    assert tags[free] == 0;
    var slot := Home(hash, tags.Length);
    d := 0;
    while tags[slot] != 0
      invariant 0 <= d <= reach && slot == Probe(hash, d, tags.Length)
      invariant forall e | 0 <= e < d :: tags[Probe(hash, e, tags.Length)] != 0
      decreases reach - d
    {
      slot := Next(slot, tags.Length);
      d := d + 1;
    }
    TableInsert(tags[..], slots[..], hashes, dist, d);
    tags[slot] := TagOf(hash);
    slots[slot] := id;
    assert tags[..] == old(tags[..])[slot := TagOf(hash)];
    assert slots[..] == old(slots[..])[slot := id];
  }

  lemma TableInsert(tags: seq<u8>, slots: seq<u32>, hashes: seq<u32>, dist: seq<nat>, d: nat)
    requires Table(tags, slots, hashes, dist) && |dist| < |hashes| && |dist| <= U32_MAX
    requires d < |tags| && tags[Probe(hashes[|dist|], d, |tags|)] == 0
    requires forall e | 0 <= e < d :: tags[Probe(hashes[|dist|], e, |tags|)] != 0
    ensures var p := Probe(hashes[|dist|], d, |tags|);
            Table(tags[p := TagOf(hashes[|dist|])], slots[p := |dist|], hashes, dist + [d])
  {
    var p := Probe(hashes[|dist|], d, |tags|);
    var tags', slots', dist' := tags[p := TagOf(hashes[|dist|])], slots[p := |dist|], dist + [d];
    forall i | 0 <= i < |dist'|
      ensures var q := Probe(hashes[i], dist'[i], |tags'|);
              tags'[q] == TagOf(hashes[i]) && slots'[q] == i
    {
      if i < |dist| {
        assert tags[Probe(hashes[i], dist[i], |tags|)] == TagOf(hashes[i]);
      }
    }
    forall i, e | 0 <= i < |dist'| && 0 <= e < dist'[i]
      ensures tags'[Probe(hashes[i], e, |tags'|)] != 0
    {
    }
    forall q | 0 <= q < |tags'| && tags'[q] != 0
      ensures slots'[q] < |dist'| && Probe(hashes[slots'[q]], dist'[slots'[q]], |tags'|) == q
    {
      if q != p {
        assert tags[q] != 0;
      }
    }
  }
}
