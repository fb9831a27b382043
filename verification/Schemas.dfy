/** A schema as the counts and declared types the storage layout depends on. */
module Schemas {
  import opened Wrappers
  import opened Storage

  /** Multiplication by repeated addition, which keeps slot arithmetic linear for the prover. */
  function Times(n: nat, m: nat): nat {
    if m == 0 then 0 else n + Times(n, m - 1)
  }

  lemma {:induction false} TimesIsProduct(n: nat, m: nat)
    ensures Times(n, m) == n * m
  {
    if m > 0 {
      TimesIsProduct(n, m - 1);
    }
  }

  lemma {:induction false} TimesMonotone(n: nat, a: nat, b: nat)
    requires a <= b
    ensures Times(n, a) <= Times(n, b)
    decreases b
  {
    if a < b {
      TimesMonotone(n, a, b - 1);
    }
  }

  lemma TimesApart(n: nat, a: nat, b: nat)
    ensures a < b ==> Times(n, a) + n <= Times(n, b)
  {
    if a < b {
      TimesMonotone(n, a + 1, b);
    }
  }

  /**
   Kinds are indices: node kinds below `nodeKinds`, edge kinds below `|edgeTypes|`, property
   kinds below `|propTypes|` and registered enums below `|variantCounts|`.
   */
  datatype Schema = Schema(
    nodeKinds: nat,
    edgeTypes: seq<PropertyType>,
    edgeEnums: seq<Option<nat>>,
    propTypes: seq<PropertyType>,
    propEnums: seq<Option<nat>>,
    variantCounts: seq<nat>)
  {
    /** Node properties are never declared without a type. */
    ghost predicate Valid() {
      && nodeKinds <= U32_MAX
      && |edgeTypes| == |edgeEnums|
      && |propTypes| == |propEnums|
      && forall t <- propTypes :: t != NoType
    }

    function EdgeStorageSize(): nat {
      Times(nodeKinds, 2 * |edgeTypes|)
    }

    function PropertyStorageSize(): nat {
      Times(nodeKinds, |propTypes|)
    }

    /** The first slot of the block that `(direction, edgeKind)` owns. */
    function EdgeBlock(direction: Direction, edgeKind: nat): nat {
      Times(nodeKinds, direction.Factor() + 2 * edgeKind)
    }

    function EdgeStorageSlot(nodeKind: nat, direction: Direction, edgeKind: nat): nat {
      nodeKind + EdgeBlock(direction, edgeKind)
    }

    function PropertyStorageSlot(nodeKind: nat, propKind: nat): nat {
      nodeKind + Times(nodeKinds, propKind)
    }

    // ----- from a slot back to what it stores

    /** A slot's place within its block of `nodeKinds` slots, and the number of its block. */
    function PlaceInBlock(i: nat): nat {
      if i < nodeKinds || nodeKinds == 0 then i else PlaceInBlock(i - nodeKinds)
    }

    function BlockOf(i: nat): nat {
      if i < nodeKinds || nodeKinds == 0 then 0 else 1 + BlockOf(i - nodeKinds)
    }

    function EdgeSlotKind(i: nat): nat {
      PlaceInBlock(i)
    }

    function EdgeSlotDirection(i: nat): Direction {
      if BlockOf(i) % 2 == 0 then In else Out
    }

    function EdgeSlotEdge(i: nat): nat {
      BlockOf(i) / 2
    }

    function PropertySlotKind(i: nat): nat {
      PlaceInBlock(i)
    }

    function PropertySlotProp(i: nat): nat {
      BlockOf(i)
    }

    lemma {:induction false} SlotSplits(i: nat, blocks: nat)
      requires i < Times(nodeKinds, blocks)
      ensures PlaceInBlock(i) < nodeKinds && BlockOf(i) < blocks
      ensures PlaceInBlock(i) + Times(nodeKinds, BlockOf(i)) == i
      decreases i
    {
      if blocks > 0 && 0 < nodeKinds <= i {
        SlotSplits(i - nodeKinds, blocks - 1);
      }
      TimesIsProduct(nodeKinds, blocks);
    }

    lemma SlotUnique(k: nat, b: nat, k': nat, b': nat)
      requires k < nodeKinds && k' < nodeKinds
      requires k + Times(nodeKinds, b) == k' + Times(nodeKinds, b')
      ensures k == k' && b == b'
    {
      TimesApart(nodeKinds, b, b');
      TimesApart(nodeKinds, b', b);
    }

    lemma SlotBelow(k: nat, b: nat, blocks: nat)
      requires k < nodeKinds && b < blocks
      ensures k + Times(nodeKinds, b) < Times(nodeKinds, blocks)
    {
      TimesMonotone(nodeKinds, b + 1, blocks);
    }

    /** Slots and (node kind, direction, edge kind) triples correspond one to one. */
    lemma EdgeSlotAt(i: nat)
      requires i < EdgeStorageSize()
      ensures EdgeSlotKind(i) < nodeKinds && EdgeSlotEdge(i) < |edgeTypes|
      ensures EdgeStorageSlot(EdgeSlotKind(i), EdgeSlotDirection(i), EdgeSlotEdge(i)) == i
    {
      SlotSplits(i, 2 * |edgeTypes|);
      assert EdgeSlotDirection(i).Factor() + 2 * EdgeSlotEdge(i) == BlockOf(i);
    }

    lemma EdgeSlotOf(k: nat, d: Direction, e: nat)
      requires k < nodeKinds && e < |edgeTypes|
      ensures var i := EdgeStorageSlot(k, d, e);
              && i < EdgeStorageSize()
              && EdgeSlotKind(i) == k && EdgeSlotDirection(i) == d && EdgeSlotEdge(i) == e
    {
      var b, i := d.Factor() + 2 * e, EdgeStorageSlot(k, d, e);
      SlotBelow(k, b, 2 * |edgeTypes|);
      SlotSplits(i, 2 * |edgeTypes|);
      SlotUnique(k, b, PlaceInBlock(i), BlockOf(i));
    }

    /** Slots and (node kind, property kind) pairs correspond one to one. */
    lemma PropertySlotAt(i: nat)
      requires i < PropertyStorageSize()
      ensures PropertySlotKind(i) < nodeKinds && PropertySlotProp(i) < |propTypes|
      ensures PropertyStorageSlot(PropertySlotKind(i), PropertySlotProp(i)) == i
    {
      SlotSplits(i, |propTypes|);
    }

    lemma PropertySlotOf(k: nat, p: nat)
      requires k < nodeKinds && p < |propTypes|
      ensures var i := PropertyStorageSlot(k, p);
              i < PropertyStorageSize() && PropertySlotKind(i) == k && PropertySlotProp(i) == p
    {
      var i := PropertyStorageSlot(k, p);
      SlotBelow(k, p, |propTypes|);
      SlotSplits(i, |propTypes|);
      SlotUnique(k, p, PlaceInBlock(i), BlockOf(i));
    }

    // ----- the slot iterators

    function BlockTriples(direction: Direction, edgeKind: nat): seq<(nat, Direction, nat)> {
      seq(nodeKinds, k requires 0 <= k < nodeKinds => (k, direction, edgeKind))
    }

    /** The triples of the first `n` edge kinds: In before Out, node kind innermost. */
    function EdgeSlotsUpTo(n: nat): seq<(nat, Direction, nat)> {
      if n == 0 then [] else EdgeSlotsUpTo(n - 1) + BlockTriples(In, n - 1) + BlockTriples(Out, n - 1)
    }

    /** The pairs of the first `n` property kinds, node kind innermost. */
    function PropertySlotsUpTo(n: nat): seq<(nat, nat)> {
      if n == 0 then []
      else PropertySlotsUpTo(n - 1) + seq(nodeKinds, k requires 0 <= k < nodeKinds => (k, n - 1))
    }

    /** The i-th triple the iterator yields is the one stored in slot i. */
    lemma {:induction false} EdgeIteratorOrder(n: nat)
      requires n <= |edgeTypes|
      ensures |EdgeSlotsUpTo(n)| == Times(nodeKinds, 2 * n)
      ensures forall i | 0 <= i < |EdgeSlotsUpTo(n)| ::
                EdgeSlotsUpTo(n)[i] == (EdgeSlotKind(i), EdgeSlotDirection(i), EdgeSlotEdge(i))
    {
      if n > 0 {
        EdgeIteratorOrder(n - 1);
        var before, ins, outs := EdgeSlotsUpTo(n - 1), BlockTriples(In, n - 1), BlockTriples(Out, n - 1);
        var base := |before|;
        assert Times(nodeKinds, 2 * n - 1) == base + nodeKinds;
        assert EdgeBlock(In, n - 1) == base && EdgeBlock(Out, n - 1) == base + nodeKinds;
        assert |EdgeSlotsUpTo(n)| == base + nodeKinds + nodeKinds;
        forall i | 0 <= i < |EdgeSlotsUpTo(n)|
          ensures EdgeSlotsUpTo(n)[i] == (EdgeSlotKind(i), EdgeSlotDirection(i), EdgeSlotEdge(i))
        {
          if i < base {
            assert EdgeSlotsUpTo(n)[i] == before[i];
          } else if i < base + nodeKinds {
            EdgeSlotOf(i - base, In, n - 1);
            assert EdgeSlotsUpTo(n)[i] == ins[i - base];
          } else {
            EdgeSlotOf(i - base - nodeKinds, Out, n - 1);
            assert EdgeSlotsUpTo(n)[i] == outs[i - base - nodeKinds];
          }
        }
      }
    }

    /** The i-th pair the iterator yields is the one stored in slot i. */
    lemma {:induction false} PropertyIteratorOrder(n: nat)
      requires n <= |propTypes|
      ensures |PropertySlotsUpTo(n)| == Times(nodeKinds, n)
      ensures forall i | 0 <= i < |PropertySlotsUpTo(n)| ::
                PropertySlotsUpTo(n)[i] == (PropertySlotKind(i), PropertySlotProp(i))
    {
      if n > 0 {
        PropertyIteratorOrder(n - 1);
        var before := PropertySlotsUpTo(n - 1);
        forall i | 0 <= i < |PropertySlotsUpTo(n)|
          ensures PropertySlotsUpTo(n)[i] == (PropertySlotKind(i), PropertySlotProp(i))
        {
          if i < |before| {
            assert PropertySlotsUpTo(n)[i] == before[i];
          } else {
            PropertySlotOf(i - |before|, n - 1);
            assert PropertySlotsUpTo(n)[i] == (i - |before|, n - 1);
          }
        }
      }
    }

    /** The slot formulas as products. */
    lemma SlotFormulas(k: nat, d: Direction, e: nat, p: nat)
      ensures EdgeStorageSlot(k, d, e) == k + nodeKinds * (d.Factor() + 2 * e)
      ensures PropertyStorageSlot(k, p) == k + nodeKinds * p
    {
      TimesIsProduct(nodeKinds, d.Factor() + 2 * e);
      TimesIsProduct(nodeKinds, p);
    }

    lemma SizeFormulas()
      ensures EdgeStorageSize() == nodeKinds * (2 * |edgeTypes|)
      ensures PropertyStorageSize() == nodeKinds * |propTypes|
    {
      TimesIsProduct(nodeKinds, 2 * |edgeTypes|);
      TimesIsProduct(nodeKinds, |propTypes|);
    }
  }
}
