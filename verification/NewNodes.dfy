/** Numbering a diff's new nodes and bucketing what they carry. */
module NewNodes {
  import opened Wrappers
  import opened Schemas
  import opened Diffs
  import opened PropertyAppends
  import opened Classifying

  ghost predicate KindsKnown(s: Schema, newNodes: seq<NewNode>) {
    forall n <- newNodes :: n.kind < s.nodeKinds && forall p <- n.properties :: p < |s.propTypes|
  }

  lemma WellKindedReads(s: Schema, d: GraphDiff)
    requires WellKinded(s, d)
    ensures KindsKnown(s, d.newNodes)
    ensures forall e <- d.newEdges :: e.kind < |s.edgeTypes|
    ensures forall c <- d.changes :: c.UpdateNodeProperty? ==> c.prop < |s.propTypes|
  {
  }

  lemma OfKindNext(newNodes: seq<NewNode>, j: nat, k: nat)
    requires j < |newNodes|
    ensures OfKind(newNodes[..j + 1], k)
         == if newNodes[j].kind == k then OfKind(newNodes[..j], k) + [newNodes[j]] else OfKind(newNodes[..j], k)
  {
    assert newNodes[..j + 1][..j] == newNodes[..j];
  }

  lemma {:induction false} OfKindPrefix(newNodes: seq<NewNode>, j: nat, k: nat)
    requires j <= |newNodes|
    ensures |OfKind(newNodes[..j], k)| <= |OfKind(newNodes, k)|
    decreases |newNodes|
  {
    if j < |newNodes| {
      assert newNodes[..|newNodes| - 1][..j] == newNodes[..j];
      OfKindPrefix(newNodes[..|newNodes| - 1], j, k);
    } else {
      assert newNodes[..j] == newNodes;
    }
  }

  /** The number of new nodes of each kind. */
  method CountNewNodes(s: Schema, newNodes: seq<NewNode>) returns (counts: seq<nat>)
    requires KindsKnown(s, newNodes)
    ensures |counts| == s.nodeKinds
    ensures forall k | 0 <= k < |counts| :: counts[k] == |OfKind(newNodes, k)|
  {
    counts := seq(s.nodeKinds, _ => 0);
    var j := 0;
    assert newNodes[..0] == [];
    while j < |newNodes|
      invariant 0 <= j <= |newNodes| && |counts| == s.nodeKinds
      invariant forall k | 0 <= k < |counts| :: counts[k] == |OfKind(newNodes[..j], k)|
    {
      forall k
        ensures OfKind(newNodes[..j + 1], k)
             == if newNodes[j].kind == k then OfKind(newNodes[..j], k) + [newNodes[j]] else OfKind(newNodes[..j], k)
      {
        OfKindNext(newNodes, j, k);
      }
      assert newNodes[j] in newNodes;
      var kind := newNodes[j].kind;
      counts := counts[kind := counts[kind] + 1];
      j := j + 1;
    }
    assert newNodes[..j] == newNodes;
  }

  // ----- values by slot

  /** The bucket holds what the first new nodes of the kind carry, with room for all of them. */
  ghost predicate HoldsSome(bucket: NewValues, added: seq<NewNode>, total: nat, p: nat) {
    match bucket
    case None => forall j | 0 <= j < |added| :: p !in added[j].properties
    case Some(values) =>
      && |added| <= |values| == total
      && (exists n :: n in added && p in n.properties)
      && (forall j | 0 <= j < |added| ::
            values[j] == if p in added[j].properties then Some(added[j].properties[p]) else None)
      && forall j | |added| <= j < |values| :: values[j] == None
  }

  lemma HoldsSomeIsAll(bucket: NewValues, added: seq<NewNode>, p: nat)
    requires HoldsSome(bucket, added, |added|, p)
    ensures HoldsNew(bucket, added, p)
  {
  }

  lemma HoldsOneMore(bucket: NewValues, added: seq<NewNode>, total: nat, p: nat, node: NewNode)
    requires HoldsSome(bucket, added, total, p) && |added| < total
    ensures p !in node.properties ==> HoldsSome(bucket, added + [node], total, p)
    ensures p in node.properties ==>
              var values := if bucket.Some? then bucket.value else seq(total, _ => None);
              && |values| == total
              && HoldsSome(Some(values[|added| := Some(node.properties[p])]), added + [node], total, p)
  {
    assert node in added + [node];
    forall n | n in added
      ensures n in added + [node]
    {
    }
  }

  /** What the nodes of slot `i`'s kind are, node `j` counted for the properties in `done`. */
  ghost function Seen(s: Schema, newNodes: seq<NewNode>, j: nat, done: set<nat>, i: nat): seq<NewNode>
    requires j <= |newNodes|
  {
    var k := s.PropertySlotKind(i);
    var older := OfKind(newNodes[..j], k);
    if j < |newNodes| && newNodes[j].kind == k && s.PropertySlotProp(i) in done then older + [newNodes[j]] else older
  }

  ghost predicate ValuesHeld(s: Schema, newNodes: seq<NewNode>, values: seq<NewValues>, j: nat, done: set<nat>) {
    && j <= |newNodes|
    && |values| == s.PropertyStorageSize()
    && forall i | 0 <= i < |values| ::
         HoldsSome(values[i], Seen(s, newNodes, j, done, i), |OfKind(newNodes, s.PropertySlotKind(i))|,
                   s.PropertySlotProp(i))
  }

  lemma ValuesHeldAtFirst(s: Schema, newNodes: seq<NewNode>)
    ensures ValuesHeld(s, newNodes, seq(s.PropertyStorageSize(), _ => None), 0, {})
  {
  }

  lemma ValuesHeldInside(s: Schema, newNodes: seq<NewNode>, values: seq<NewValues>, j: nat, done: set<nat>, p: nat)
    requires ValuesHeld(s, newNodes, values, j, done) && j < |newNodes| && KindsKnown(s, newNodes)
    requires p in newNodes[j].properties && p !in done
    ensures s.PropertyStorageSlot(newNodes[j].kind, p) < |values|
    ensures var slot := s.PropertyStorageSlot(newNodes[j].kind, p);
            var bucket := Bucket(values, slot, |OfKind(newNodes, newNodes[j].kind)|, None);
            && |OfKind(newNodes[..j], newNodes[j].kind)| < |bucket|
            && ValuesHeld(s, newNodes,
                          values[slot := Some(bucket[|OfKind(newNodes[..j], newNodes[j].kind)|
                                                     := Some(newNodes[j].properties[p])])],
                          j, done + {p})
  {
    hide HoldsSome, OfKind;
    assert newNodes[j] in newNodes;
    var node := newNodes[j];
    s.PropertySlotOf(node.kind, p);
    var slot := s.PropertyStorageSlot(node.kind, p);
    OfKindNext(newNodes, j, node.kind);
    OfKindPrefix(newNodes, j + 1, node.kind);
    HoldsOneMore(values[slot], OfKind(newNodes[..j], node.kind), |OfKind(newNodes, node.kind)|, p, node);
    forall i | 0 <= i < |values| && i != slot
      ensures Seen(s, newNodes, j, done + {p}, i) == Seen(s, newNodes, j, done, i)
    {
      s.PropertySlotAt(i);
    }
  }

  lemma ValuesHeldNext(s: Schema, newNodes: seq<NewNode>, values: seq<NewValues>, j: nat)
    requires j < |newNodes| && ValuesHeld(s, newNodes, values, j, newNodes[j].properties.Keys)
    ensures ValuesHeld(s, newNodes, values, j + 1, {})
  {
    hide HoldsSome, OfKind;
    var node := newNodes[j];
    forall i | 0 <= i < |values|
      ensures HoldsSome(values[i], Seen(s, newNodes, j + 1, {}, i), |OfKind(newNodes, s.PropertySlotKind(i))|,
                        s.PropertySlotProp(i))
    {
      var k, p := s.PropertySlotKind(i), s.PropertySlotProp(i);
      OfKindNext(newNodes, j, k);
      if node.kind == k && p !in node.properties {
        OfKindPrefix(newNodes, j + 1, k);
        HoldsOneMore(values[i], OfKind(newNodes[..j], k), |OfKind(newNodes, k)|, p, node);
      }
      assert Seen(s, newNodes, j + 1, {}, i) == OfKind(newNodes[..j + 1], k);
    }
  }

  lemma ValuesHeldAtLast(s: Schema, newNodes: seq<NewNode>, values: seq<NewValues>)
    requires ValuesHeld(s, newNodes, values, |newNodes|, {})
    ensures AllNewHeld(s, newNodes, values)
  {
    assert newNodes[..|newNodes|] == newNodes;
    forall i | 0 <= i < |values|
      ensures HoldsNew(values[i], OfKind(newNodes, s.PropertySlotKind(i)), s.PropertySlotProp(i))
    {
      HoldsSomeIsAll(values[i], OfKind(newNodes, s.PropertySlotKind(i)), s.PropertySlotProp(i));
    }
  }

  /** Every slot's bucket holds exactly what its kind's new nodes carry. */
  ghost predicate AllNewHeld(s: Schema, newNodes: seq<NewNode>, values: seq<NewValues>) {
    && |values| == s.PropertyStorageSize()
    && forall i | 0 <= i < |values| ::
         HoldsNew(values[i], OfKind(newNodes, s.PropertySlotKind(i)), s.PropertySlotProp(i))
  }

  /** Records one new node's properties, in whatever order they come. */
  method BucketValues(s: Schema, newNodes: seq<NewNode>, node: NewNode, newCount: nat, localIndex: nat,
                      values: seq<NewValues>, ghost j: nat)
    returns (r: seq<NewValues>)
    requires j < |newNodes| && node == newNodes[j] && KindsKnown(s, newNodes)
    requires newCount == |OfKind(newNodes, node.kind)| && localIndex == |OfKind(newNodes[..j], node.kind)|
    requires ValuesHeld(s, newNodes, values, j, {})
    ensures ValuesHeld(s, newNodes, r, j + 1, {})
  {
    hide *;
    r := values;
    var left := node.properties.Keys;
    assert node.properties.Keys - left == {};
    while left != {}
      invariant left <= node.properties.Keys
      invariant ValuesHeld(s, newNodes, r, j, node.properties.Keys - left)
      decreases |left|
    {
      var p :| p in left;
      ValuesHeldInside(s, newNodes, r, j, node.properties.Keys - left, p);
      var slot := s.PropertyStorageSlot(node.kind, p);
      var bucket := Bucket(r, slot, newCount, None);
      r := r[slot := Some(bucket[localIndex := Some(node.properties[p])])];
      assert node.properties.Keys - left + {p} == node.properties.Keys - (left - {p});
      left := left - {p};
    }
    assert node.properties.Keys - left == node.properties.Keys;
    ValuesHeldNext(s, newNodes, r, j);
  }

  // ----- numbering

  /** The first `j` new nodes are numbered and given metadata. */
  ghost predicate Numbered(nodes: seq<seq<bool>>, newNodes: seq<NewNode>, j: nat, counters: seq<nat>,
                           metas: seq<seq<bool>>, remap: seq<NewNodeId>)
  {
    && j <= |newNodes|
    && |counters| == |metas| == |nodes|
    && (forall k | 0 <= k < |counters| :: counters[k] == |OfKind(newNodes[..j], k)|)
    && (forall k | 0 <= k < |metas| :: metas[k] == seq(counters[k], _ => false))
    && remap == Remapped(nodes, newNodes[..j])
  }

  /** The k-th new node of a kind follows the kind's old nodes and its k elders in the diff. */
  lemma {:induction false} RemappedAt(nodes: seq<seq<bool>>, newNodes: seq<NewNode>, j: nat)
    requires j < |newNodes| && newNodes[j].kind < |nodes|
    ensures Remapped(nodes, newNodes)[j].kind == newNodes[j].kind
    ensures Remapped(nodes, newNodes)[j].seqNo
         == |nodes[newNodes[j].kind]| + |OfKind(newNodes[..j], newNodes[j].kind)|
  {
    if j < |newNodes| - 1 {
      RemappedAt(nodes, newNodes[..|newNodes| - 1], j);
      assert newNodes[..|newNodes| - 1][..j] == newNodes[..j];
    }
  }

  lemma NumberedAtFirst(nodes: seq<seq<bool>>, newNodes: seq<NewNode>)
    ensures Numbered(nodes, newNodes, 0, seq(|nodes|, _ => 0), seq(|nodes|, _ => []), [])
  {
    assert newNodes[..0] == [];
  }

  lemma NumberedNext(nodes: seq<seq<bool>>, newNodes: seq<NewNode>, j: nat, counters: seq<nat>,
                     metas: seq<seq<bool>>, remap: seq<NewNodeId>)
    requires Numbered(nodes, newNodes, j, counters, metas, remap) && j < |newNodes| && newNodes[j].kind < |nodes|
    ensures var k := newNodes[j].kind;
            && k < |counters| == |metas|
            && counters[k] == |OfKind(newNodes[..j], k)|
            && Numbered(nodes, newNodes, j + 1, counters[k := counters[k] + 1], metas[k := metas[k] + [false]],
                        remap + [NewNodeId(k, counters[k] + |nodes[k]|)])
  {
    var k := newNodes[j].kind;
    assert newNodes[..j + 1][..j] == newNodes[..j];
    assert counters[k] == |OfKind(newNodes[..j], k)|;
    forall i | 0 <= i < |counters|
      ensures OfKind(newNodes[..j + 1], i)
           == if newNodes[j].kind == i then OfKind(newNodes[..j], i) + [newNodes[j]] else OfKind(newNodes[..j], i)
    {
      OfKindNext(newNodes, j, i);
    }
  }

  lemma NumberedAtLast(nodes: seq<seq<bool>>, newNodes: seq<NewNode>, counters: seq<nat>,
                       metas: seq<seq<bool>>, remap: seq<NewNodeId>)
    requires Numbered(nodes, newNodes, |newNodes|, counters, metas, remap)
    ensures remap == Remapped(nodes, newNodes) && FreshMetas(nodes, newNodes, metas)
  {
    assert newNodes[..|newNodes|] == newNodes;
  }

  /** One live flag per new node of each kind. */
  ghost predicate FreshMetas(nodes: seq<seq<bool>>, newNodes: seq<NewNode>, metas: seq<seq<bool>>) {
    && |metas| == |nodes|
    && forall k | 0 <= k < |metas| :: metas[k] == seq(|OfKind(newNodes, k)|, _ => false)
  }

  method StageNewNodes(s: Schema, newNodes: seq<NewNode>, oldCounts: seq<nat>, newCounts: seq<nat>,
                       ghost nodes: seq<seq<bool>>)
    returns (metas: seq<seq<bool>>, remap: seq<NewNodeId>, values: seq<NewValues>)
    requires KindsKnown(s, newNodes) && |nodes| == |oldCounts| == |newCounts| == s.nodeKinds
    requires forall k | 0 <= k < |nodes| :: oldCounts[k] == |nodes[k]| && newCounts[k] == |OfKind(newNodes, k)|
    ensures FreshMetas(nodes, newNodes, metas)
    ensures remap == Remapped(nodes, newNodes)
    ensures forall j | 0 <= j < |newNodes| ::
              var k := newNodes[j].kind;
              k < |nodes| && remap[j].kind == k && remap[j].seqNo == |nodes[k]| + |OfKind(newNodes[..j], k)|
    ensures AllNewHeld(s, newNodes, values)
  {
    hide Numbered, ValuesHeld, OfKind, Remapped, FreshMetas, AllNewHeld;
    var counters := seq(s.nodeKinds, _ => 0);
    metas := seq(s.nodeKinds, _ => []);
    remap := [];
    values := seq(s.PropertyStorageSize(), _ => None);
    NumberedAtFirst(nodes, newNodes);
    ValuesHeldAtFirst(s, newNodes);
    var j := 0;
    while j < |newNodes|
      invariant 0 <= j <= |newNodes|
      invariant Numbered(nodes, newNodes, j, counters, metas, remap)
      invariant ValuesHeld(s, newNodes, values, j, {})
    {
      var node := newNodes[j];
      assert node in newNodes;
      NumberedNext(nodes, newNodes, j, counters, metas, remap);
      var localIndex := counters[node.kind];
      values := BucketValues(s, newNodes, node, newCounts[node.kind], localIndex, values, j);
      counters := counters[node.kind := localIndex + 1];
      metas := metas[node.kind := metas[node.kind] + [false]];
      remap := remap + [NewNodeId(node.kind, localIndex + oldCounts[node.kind])];
      j := j + 1;
    }
    NumberedAtLast(nodes, newNodes, counters, metas, remap);
    ValuesHeldAtLast(s, newNodes, values);
    forall i | 0 <= i < |newNodes|
      ensures var k := newNodes[i].kind;
              k < |nodes| && remap[i].kind == k && remap[i].seqNo == |nodes[k]| + |OfKind(newNodes[..i], k)|
    {
      assert newNodes[i] in newNodes;
      RemappedAt(nodes, newNodes, i);
    }
  }
}
