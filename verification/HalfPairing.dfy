/** Deciding whether the Out and In halves of one edge kind pair up, by sorting and scanning. */
module HalfPairing {
  import opened Wrappers
  import opened Storage
  import opened Sorting
  import opened NodeIndexes

  /** A half-edge in canonical form: numbered source and target, and the key of its value. */
  datatype HalfEdge = HalfEdge(src: u32, dst: u32, value: u64)

  predicate HalfLess(a: HalfEdge, b: HalfEdge) {
    a.src < b.src || (a.src == b.src && (a.dst < b.dst || (a.dst == b.dst && a.value < b.value)))
  }

  predicate HalfLeq(a: HalfEdge, b: HalfEdge) {
    a == b || HalfLess(a, b)
  }

  lemma HalvesTotallyOrdered()
    ensures TotalOrder(HalfLeq)
  {
  }

  /** The first index at or after `from` at which the two lists differ. */
  function FirstMismatch(a: seq<HalfEdge>, b: seq<HalfEdge>, from: nat): (r: Option<nat>)
    requires from <= |a| && from <= |b|
    ensures r.Some? ==> from <= r.value < |a| && r.value < |b| && a[r.value] != b[r.value]
    ensures forall j | from <= j < |a| && j < |b| && (r.Some? ==> j < r.value) :: a[j] == b[j]
    decreases |a| - from
  {
    if from == |a| || from == |b| then None
    else if a[from] != b[from] then Some(from)
    else FirstMismatch(a, b, from + 1)
  }

  /** The half that has no partner, and the side it is on. */
  datatype Witness = Witness(half: HalfEdge, side: Direction)

  /** Two sorted sides part at the lesser half of the first mismatch, or where one side ends. */
  function Divergence(outs: seq<HalfEdge>, ins: seq<HalfEdge>): Option<Witness> {
    var mismatch := FirstMismatch(outs, ins, 0);
    if mismatch.Some? then
      var i := mismatch.value;
      if HalfLess(outs[i], ins[i]) then Some(Witness(outs[i], Out)) else Some(Witness(ins[i], In))
    else if |outs| > |ins| then Some(Witness(outs[|ins|], Out))
    else if |outs| < |ins| then Some(Witness(ins[|outs|], In))
    else None
  }

  /** Reports the lowest unpaired half, or that an edge's two halves disagree about its value. */
  function ReportPairingMismatch(edgeKind: nat, index: NodeIndex, outs: seq<HalfEdge>, ins: seq<HalfEdge>)
    : Outcome<Error>
  {
    var mismatch := FirstMismatch(outs, ins, 0);
    if mismatch.Some? && outs[mismatch.value].src == ins[mismatch.value].src
       && outs[mismatch.value].dst == ins[mismatch.value].dst then
      var half := outs[mismatch.value];
      Err(EdgeHalfPropertyMismatch(edgeKind, ResolveDense(index, half.src), ResolveDense(index, half.dst)))
    else
      match Divergence(outs, ins)
      case None => Ok(())
      case Some(w) =>
        var (node, target) := if w.side.Out? then (w.half.src, w.half.dst) else (w.half.dst, w.half.src);
        Err(ReverseEdgeNotFound(ResolveDense(index, target), ResolveDense(index, node), w.side, edgeKind))
  }

  function CheckHalfEdgePairing(edgeKind: nat, index: NodeIndex, outs: seq<HalfEdge>, ins: seq<HalfEdge>)
    : Outcome<Error>
  {
    ReportPairingMismatch(edgeKind, index, Sort(outs, HalfLeq), Sort(ins, HalfLeq))
  }

  /** Halves come in equal numbers below `h`, and more often on `side` at `h` itself. */
  ghost predicate LeastSurplus(outs: multiset<HalfEdge>, ins: multiset<HalfEdge>, w: Witness) {
    && (forall x | HalfLess(x, w.half) :: outs[x] == ins[x])
    && if w.side.Out? then outs[w.half] > ins[w.half] else ins[w.half] > outs[w.half]
  }

  lemma CountsBelow(a: seq<HalfEdge>, i: nat, x: HalfEdge)
    requires Sorted(a, HalfLeq) && i <= |a| && (i < |a| ==> HalfLess(x, a[i]))
    ensures multiset(a)[x] == multiset(a[..i])[x]
  {
    forall j | i <= j < |a|
      ensures a[j] != x
    {
      assert HalfLeq(a[i], a[j]);
    }
    assert a == a[..i] + a[i..] && x !in a[i..];
  }

  /** The side with the lesser half at the first difference has that half once more. */
  lemma LesserIsSurplus(a: seq<HalfEdge>, b: seq<HalfEdge>, i: nat)
    requires Sorted(a, HalfLeq) && Sorted(b, HalfLeq) && i < |a| && i <= |b|
    requires a[..i] == b[..i] && (i < |b| ==> HalfLess(a[i], b[i]))
    ensures forall x | HalfLess(x, a[i]) :: multiset(a)[x] == multiset(b)[x]
    ensures multiset(a)[a[i]] > multiset(b)[a[i]]
  {
    forall x | HalfLess(x, a[i])
      ensures multiset(a)[x] == multiset(b)[x]
    {
      CountsBelow(a, i, x);
      CountsBelow(b, i, x);
    }
    CountsBelow(b, i, a[i]);
    assert a == a[..i] + [a[i]] + a[i + 1..];
  }

  lemma DivergenceIsLeast(a: seq<HalfEdge>, b: seq<HalfEdge>)
    requires Sorted(a, HalfLeq) && Sorted(b, HalfLeq)
    ensures var w := Divergence(a, b);
            if w.Some? then LeastSurplus(multiset(a), multiset(b), w.value) else a == b
  {
    hide Sorted;
    var mismatch := FirstMismatch(a, b, 0);
    if mismatch.Some? {
      var i := mismatch.value;
      assert a[..i] == b[..i];
      if HalfLess(a[i], b[i]) {
        LesserIsSurplus(a, b, i);
      } else {
        assert HalfLess(b[i], a[i]);
        LesserIsSurplus(b, a, i);
      }
    } else if |a| > |b| {
      assert a[..|b|] == b[..|b|];
      LesserIsSurplus(a, b, |b|);
    } else if |a| < |b| {
      assert a[..|a|] == b[..|a|];
      LesserIsSurplus(b, a, |a|);
    } else {
      assert a == b;
    }
  }

  predicate SameEnds(a: HalfEdge, b: HalfEdge) {
    a.src == b.src && a.dst == b.dst
  }

  /** The other side has the surplus half's edge too, with a greater value. */
  ghost predicate OtherValueBeyond(outs: multiset<HalfEdge>, ins: multiset<HalfEdge>, w: Witness) {
    exists x :: x in (if w.side.Out? then ins else outs) && SameEnds(x, w.half) && HalfLess(w.half, x)
  }

  /** Comparing the two halves at the first difference is asking whether that edge comes later at all. */
  lemma NextIsNearest(a: seq<HalfEdge>, b: seq<HalfEdge>, i: nat)
    requires Sorted(a, HalfLeq) && Sorted(b, HalfLeq) && i < |a| && i <= |b|
    requires a[..i] == b[..i] && (i < |b| ==> HalfLess(a[i], b[i]))
    ensures (exists x :: x in multiset(b) && SameEnds(x, a[i]) && HalfLess(a[i], x))
       <==> i < |b| && SameEnds(b[i], a[i])
  {
    if i < |b| && SameEnds(b[i], a[i]) {
      assert b[i] in multiset(b);
    }
    forall j | 0 <= j < i
      ensures HalfLeq(b[j], a[i])
    {
      assert a[..i][j] == b[..i][j];
    }
    forall x | x in multiset(b) && SameEnds(x, a[i]) && HalfLess(a[i], x)
      ensures i < |b| && SameEnds(b[i], a[i])
    {
      var j :| 0 <= j < |b| && b[j] == x;
      assert j >= i;
      assert HalfLeq(b[i], b[j]);
    }
  }

  /** What is reported about the least surplus: a missing reverse, or two values that disagree. */
  function Reported(edgeKind: nat, index: NodeIndex, w: Witness, otherValue: bool): Error {
    var (node, target) := if w.side.Out? then (w.half.src, w.half.dst) else (w.half.dst, w.half.src);
    if otherValue then
      EdgeHalfPropertyMismatch(edgeKind, ResolveDense(index, w.half.src), ResolveDense(index, w.half.dst))
    else
      ReverseEdgeNotFound(ResolveDense(index, target), ResolveDense(index, node), w.side, edgeKind)
  }

  lemma ReportIsCanonical(edgeKind: nat, index: NodeIndex, a: seq<HalfEdge>, b: seq<HalfEdge>)
    requires Sorted(a, HalfLeq) && Sorted(b, HalfLeq)
    ensures var w := Divergence(a, b);
            ReportPairingMismatch(edgeKind, index, a, b)
            == if w.None? then Ok(())
               else Err(Reported(edgeKind, index, w.value, OtherValueBeyond(multiset(a), multiset(b), w.value)))
  {
    hide ResolveDense, Sorted;
    var mismatch := FirstMismatch(a, b, 0);
    if mismatch.Some? {
      var i := mismatch.value;
      assert a[..i] == b[..i];
      if HalfLess(a[i], b[i]) {
        NextIsNearest(a, b, i);
      } else {
        assert HalfLess(b[i], a[i]);
        NextIsNearest(b, a, i);
      }
    } else if |a| > |b| {
      assert a[..|b|] == b[..|b|];
      NextIsNearest(a, b, |b|);
    } else if |a| < |b| {
      assert a[..|a|] == b[..|a|];
      NextIsNearest(b, a, |a|);
    }
  }

  /**
   Sorting and scanning decides multiset equality, and what it reports is canonical: the least
   half whose multiplicity differs, on the side that has more of it, with its ends as seen from
   that side. It is reported as a disagreement about the value exactly when the other side holds
   the same edge with a greater value.
   */
  lemma PairingDecides(edgeKind: nat, index: NodeIndex, outs: seq<HalfEdge>, ins: seq<HalfEdge>)
    ensures CheckHalfEdgePairing(edgeKind, index, outs, ins).Ok? <==> multiset(outs) == multiset(ins)
    ensures var r := CheckHalfEdgePairing(edgeKind, index, outs, ins);
            r.Err? ==>
              exists w: Witness ::
                && LeastSurplus(multiset(outs), multiset(ins), w)
                && r.error == Reported(edgeKind, index, w, OtherValueBeyond(multiset(outs), multiset(ins), w))
  {
    hide ResolveDense, TotalOrder, Sorted, Reported, OtherValueBeyond, ReportPairingMismatch;
    HalvesTotallyOrdered();
    SortSorts(outs, HalfLeq);
    SortSorts(ins, HalfLeq);
    var a, b := Sort(outs, HalfLeq), Sort(ins, HalfLeq);
    DivergenceIsLeast(a, b);
    ReportIsCanonical(edgeKind, index, a, b);
    if multiset(outs) == multiset(ins) {
      SortedUnique(a, b, HalfLeq);
      assert Divergence(a, a).None?;
    } else {
      var w := Divergence(a, b).value;
      assert LeastSurplus(multiset(outs), multiset(ins), w);
    }
  }

  /**
   Disagreement about a value does not mean equally many parallel edges: two Out halves against
   one In half are reported this way when the missing one is the lesser.
   */
  lemma MismatchWithoutEqualCounts(index: NodeIndex)
    ensures CheckHalfEdgePairing(0, index, [HalfEdge(0, 1, 7), HalfEdge(0, 1, 9)], [HalfEdge(0, 1, 9)])
         == Err(EdgeHalfPropertyMismatch(0, ResolveDense(index, 0), ResolveDense(index, 1)))
  {
    var p, q := HalfEdge(0, 1, 7), HalfEdge(0, 1, 9);
    assert [p, q][1..] == [q] && [q][1..] == [];
    assert Sort([q], HalfLeq) == Insert([], q, HalfLeq) == [q];
    assert Sort([p, q], HalfLeq) == Insert([q], p, HalfLeq) == [p, q];
  }
}
