/** How the edges of one kind, as a multiset, follow changes to single runs. */
module EdgeBags {
  import opened Storage
  import opened Schemas
  import opened Graphs

  /** The edges of one direction and kind as a multiset. */
  ghost function Bag<V>(s: Schema, edges: seq<Table<Half<V>>>, d: Direction, e: nat): multiset<Edge<V>>
    requires e < |s.edgeTypes| && |edges| == s.EdgeStorageSize()
  {
    multiset(Edges(s, edges, d, e))
  }

  ghost function RunBag<V>(owner: RawNodeId, d: Direction, run: seq<Half<V>>): multiset<Edge<V>> {
    multiset(RunEdges(owner, d, run))
  }

  lemma RunBagJoins<V>(owner: RawNodeId, d: Direction, a: seq<Half<V>>, b: seq<Half<V>>)
    ensures RunBag(owner, d, a + b) == RunBag(owner, d, a) + RunBag(owner, d, b)
  {
    assert RunEdges(owner, d, a + b) == RunEdges(owner, d, a) + RunEdges(owner, d, b);
  }

  lemma RunBagOne<V>(owner: RawNodeId, d: Direction, half: Half<V>)
    ensures RunBag(owner, d, [half]) == multiset{Canon(owner, d, half)}
  {
    assert RunEdges(owner, d, [half]) == [Canon(owner, d, half)];
  }

  lemma SumsShift<T>(a: multiset<T>, b: multiset<T>, x: multiset<T>, y: multiset<T>, more: multiset<T>)
    requires a + x == b + y
    ensures a + more + x == b + more + y
  {
    assert a + more + x == a + x + more;
    assert b + more + y == b + y + more;
  }

  lemma SumsCompose<T>(a: multiset<T>, b: multiset<T>, p: multiset<T>, q: multiset<T>, x: multiset<T>, y: multiset<T>)
    requires a + p == b + q && q + x == p + y
    ensures a + x == b + y
  {
    forall t
      ensures (a + x)[t] == (b + y)[t]
    {
      assert (a + p)[t] == (b + q)[t] && (q + x)[t] == (p + y)[t];
    }
  }

  lemma {:induction false} KindReplaced<V>(kind: nat, d: Direction, runs: seq<seq<Half<V>>>, v: nat, run: seq<Half<V>>)
    requires v < |runs|
    ensures multiset(KindEdges(kind, d, runs[v := run])) + RunBag(NodeAt(kind, v), d, runs[v])
         == multiset(KindEdges(kind, d, runs)) + RunBag(NodeAt(kind, v), d, run)
    decreases |runs|
  {
    hide RunEdges;
    var last, after := |runs| - 1, runs[v := run];
    assert KindEdges(kind, d, after)
           == KindEdges(kind, d, after[..last]) + RunEdges(NodeAt(kind, last), d, after[last]);
    assert KindEdges(kind, d, runs) == KindEdges(kind, d, runs[..last]) + RunEdges(NodeAt(kind, last), d, runs[last]);
    if v < last {
      KindReplaced(kind, d, runs[..last], v, run);
      assert after[..last] == runs[..last][v := run];
      SumsShift(multiset(KindEdges(kind, d, after[..last])), multiset(KindEdges(kind, d, runs[..last])),
                RunBag(NodeAt(kind, v), d, runs[v]), RunBag(NodeAt(kind, v), d, run),
                RunBag(NodeAt(kind, last), d, runs[last]));
    } else {
      assert runs[v := run][..last] == runs[..last];
    }
  }

  lemma {:induction false} BlockReplaced<V>(d: Direction, block: seq<Table<Half<V>>>, k: nat, t: Table<Half<V>>)
    requires k < |block|
    ensures multiset(BlockEdges(d, block[k := t])) + multiset(KindEdges(k, d, block[k].runs))
         == multiset(BlockEdges(d, block)) + multiset(KindEdges(k, d, t.runs))
    decreases |block|
  {
    hide KindEdges;
    var last, after := |block| - 1, block[k := t];
    assert BlockEdges(d, after) == BlockEdges(d, after[..last]) + KindEdges(last, d, after[last].runs);
    assert BlockEdges(d, block) == BlockEdges(d, block[..last]) + KindEdges(last, d, block[last].runs);
    if k < last {
      BlockReplaced(d, block[..last], k, t);
      assert after[..last] == block[..last][k := t];
      SumsShift(multiset(BlockEdges(d, after[..last])), multiset(BlockEdges(d, block[..last])),
                multiset(KindEdges(k, d, block[k].runs)), multiset(KindEdges(k, d, t.runs)),
                multiset(KindEdges(last, d, block[last].runs)));
    } else {
      assert block[k := t][..last] == block[..last];
    }
  }

  lemma {:induction false} BlockSame<V>(d: Direction, a: seq<Table<Half<V>>>, b: seq<Table<Half<V>>>)
    requires |a| == |b| && forall k | 0 <= k < |a| :: KindEdges(k, d, a[k].runs) == KindEdges(k, d, b[k].runs)
    ensures BlockEdges(d, a) == BlockEdges(d, b)
  {
    hide KindEdges;
    if a != [] {
      BlockSame(d, a[..|a| - 1], b[..|b| - 1]);
    }
  }

  lemma BlockBounds(s: Schema, d: Direction, e: nat)
    requires e < |s.edgeTypes|
    ensures s.EdgeBlock(d, e) + s.nodeKinds <= s.EdgeStorageSize()
  {
    TimesMonotone(s.nodeKinds, d.Factor() + 2 * e + 1, 2 * |s.edgeTypes|);
  }

  /** A slot of another direction or kind lies in another block. */
  lemma BlockElsewhere<V>(s: Schema, edges: seq<Table<Half<V>>>, k: nat, d: Direction, e: nat, t: Table<Half<V>>,
                          d': Direction, e': nat)
    requires |edges| == s.EdgeStorageSize() && k < s.nodeKinds && e < |s.edgeTypes| && e' < |s.edgeTypes|
    requires (d, e) != (d', e')
    ensures s.EdgeStorageSlot(k, d, e) < |edges|
    ensures Block(s, edges[s.EdgeStorageSlot(k, d, e) := t], d', e') == Block(s, edges, d', e')
  {
    BlockBounds(s, d, e);
    BlockBounds(s, d', e');
    TimesApart(s.nodeKinds, d.Factor() + 2 * e, d'.Factor() + 2 * e');
    TimesApart(s.nodeKinds, d'.Factor() + 2 * e', d.Factor() + 2 * e);
  }

  lemma BlockHere<V>(s: Schema, edges: seq<Table<Half<V>>>, k: nat, d: Direction, e: nat, t: Table<Half<V>>)
    requires |edges| == s.EdgeStorageSize() && k < s.nodeKinds && e < |s.edgeTypes|
    ensures s.EdgeStorageSlot(k, d, e) < |edges| && |Block(s, edges, d, e)| == s.nodeKinds
    ensures Block(s, edges, d, e)[k] == edges[s.EdgeStorageSlot(k, d, e)]
    ensures Block(s, edges[s.EdgeStorageSlot(k, d, e) := t], d, e) == Block(s, edges, d, e)[k := t]
  {
    BlockBounds(s, d, e);
  }

  /** Replacing one run trades that run's edges for the new run's. */
  lemma RunReplaced<V>(s: Schema, edges: seq<Table<Half<V>>>, k: nat, d: Direction, e: nat, v: nat,
                       run: seq<Half<V>>, t: Table<Half<V>>)
    requires |edges| == s.EdgeStorageSize() && k < s.nodeKinds && e < |s.edgeTypes|
    requires s.EdgeStorageSlot(k, d, e) < |edges| && v < |edges[s.EdgeStorageSlot(k, d, e)].runs|
    requires t.runs == edges[s.EdgeStorageSlot(k, d, e)].runs[v := run]
    ensures var i := s.EdgeStorageSlot(k, d, e);
            && Bag(s, edges[i := t], d, e) + RunBag(NodeAt(k, v), d, edges[i].runs[v])
               == Bag(s, edges, d, e) + RunBag(NodeAt(k, v), d, run)
            && forall d', e': nat | e' < |s.edgeTypes| && (d', e') != (d, e) ::
                 Bag(s, edges[i := t], d', e') == Bag(s, edges, d', e')
  {
    hide KindEdges, BlockEdges, RunEdges, Block, RunBag;
    var i := s.EdgeStorageSlot(k, d, e);
    BlockHere(s, edges, k, d, e, t);
    BlockReplaced(d, Block(s, edges, d, e), k, t);
    KindReplaced(k, d, edges[i].runs, v, run);
    SumsCompose(Bag(s, edges[i := t], d, e), Bag(s, edges, d, e),
                multiset(KindEdges(k, d, edges[i].runs)), multiset(KindEdges(k, d, t.runs)),
                RunBag(NodeAt(k, v), d, edges[i].runs[v]), RunBag(NodeAt(k, v), d, run));
    forall d', e': nat | e' < |s.edgeTypes| && (d', e') != (d, e)
      ensures Bag(s, edges[i := t], d', e') == Bag(s, edges, d', e')
    {
      BlockElsewhere(s, edges, k, d, e, t, d', e');
    }
  }

  // ----- where an edge of the bag is stored

  lemma {:induction false} KindHas<V>(kind: nat, d: Direction, runs: seq<seq<Half<V>>>, x: Edge<V>)
    returns (v: nat, p: nat)
    requires x in KindEdges(kind, d, runs)
    ensures v < |runs| && p < |runs[v]| && Canon(NodeAt(kind, v), d, runs[v][p]) == x
  {
    var last := |runs| - 1;
    if x in KindEdges(kind, d, runs[..last]) {
      v, p := KindHas(kind, d, runs[..last], x);
    } else {
      v := last;
      p :| 0 <= p < |runs[last]| && RunEdges(NodeAt(kind, last), d, runs[last])[p] == x;
    }
  }

  lemma {:induction false} BlockHas<V>(d: Direction, block: seq<Table<Half<V>>>, x: Edge<V>)
    returns (k: nat, v: nat, p: nat)
    requires x in BlockEdges(d, block)
    ensures k < |block| && v < |block[k].runs| && p < |block[k].runs[v]|
    ensures Canon(NodeAt(k, v), d, block[k].runs[v][p]) == x
  {
    var last := |block| - 1;
    if x in BlockEdges(d, block[..last]) {
      k, v, p := BlockHas(d, block[..last], x);
    } else {
      k := last;
      v, p := KindHas(last, d, block[last].runs, x);
    }
  }

  /** An edge of the bag is a half stored at one of its ends. */
  lemma BagHas<V>(s: Schema, edges: seq<Table<Half<V>>>, d: Direction, e: nat, x: Edge<V>)
    returns (k: nat, v: nat, p: nat)
    requires e < |s.edgeTypes| && |edges| == s.EdgeStorageSize() && x in Bag(s, edges, d, e)
    ensures k < s.nodeKinds && s.EdgeStorageSlot(k, d, e) < |edges|
    ensures v < |edges[s.EdgeStorageSlot(k, d, e)].runs| && p < |edges[s.EdgeStorageSlot(k, d, e)].runs[v]|
    ensures Canon(NodeAt(k, v), d, edges[s.EdgeStorageSlot(k, d, e)].runs[v][p]) == x
  {
    BlockBounds(s, d, e);
    assert x in Edges(s, edges, d, e);
    k, v, p := BlockHas(d, Block(s, edges, d, e), x);
  }
}
