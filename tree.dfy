/** The containers of a parsed value form a tree: every container is held by at
    most one slot of the heap, and the subtree of a container is the container
    itself with the subtrees of the containers it holds. The reviver pass
    `internalize` walks these subtrees. */
module Json5Tree {
  import opened Json5Values

  /** No two slots of the heap refer to the same container. */
  ghost predicate Tree(heap: Heap) {
    forall a, i, b, j ::
      0 <= a < |heap| && 0 <= i < |Children(heap[a])| &&
      0 <= b < |heap| && 0 <= j < |Children(heap[b])| &&
      Children(heap[a])[i].Ref? && Children(heap[a])[i] == Children(heap[b])[j]
      ==> a == b && i == j
  }

  /** No slot of the heap holds `s`: a reference to a container allocated after
      the heap was read. */
  ghost predicate FreshSlot(heap: Heap, s: Slot) {
    s.Ref? ==> forall a, i :: 0 <= a < |heap| && 0 <= i < |Children(heap[a])| ==> Children(heap[a])[i] != s
  }

  /** Node m is node id or lies in the subtree of a container that id holds. */
  ghost predicate InSubtree(heap: Heap, id: nat, m: int)
    requires Ordered(heap) && id < |heap|
    decreases |heap| - id, 1
  {
    m == id || InChildSubtree(heap, id, |Children(heap[id])|, m)
  }

  /** Node m lies in the subtree of one of the first n slots of node id. */
  ghost predicate InChildSubtree(heap: Heap, id: nat, n: nat, m: int)
    requires Ordered(heap) && id < |heap| && n <= |Children(heap[id])|
    decreases |heap| - id, 0
  {
    assert NodeOrdered(heap, id);
    exists j :: 0 <= j < n && Children(heap[id])[j].Ref? && InSubtree(heap, Children(heap[id])[j].id, m)
  }

  /** One more slot adds the subtree it holds. */
  lemma InChildSubtreeNext(heap: Heap, id: nat, n: nat, m: int)
    requires Ordered(heap) && id < |heap| && n < |Children(heap[id])|
    ensures NodeOrdered(heap, id)
    ensures InChildSubtree(heap, id, n + 1, m) <==>
      InChildSubtree(heap, id, n, m) ||
      (Children(heap[id])[n].Ref? && InSubtree(heap, Children(heap[id])[n].id, m))
  {
    assert NodeOrdered(heap, id);
  }

  /** A subtree holds only nodes at or after its root. */
  lemma {:induction false} SubtreeBounds(heap: Heap, id: nat, m: int)
    requires Ordered(heap) && id < |heap|
    ensures InSubtree(heap, id, m) ==> id <= m < |heap|
    decreases |heap| - id
  {
    if m != id && InSubtree(heap, id, m) {
      assert NodeOrdered(heap, id);
      assert InChildSubtree(heap, id, |Children(heap[id])|, m);
      var j :| 0 <= j < |Children(heap[id])| && Children(heap[id])[j].Ref? &&
        InSubtree(heap, Children(heap[id])[j].id, m);
      SubtreeBounds(heap, Children(heap[id])[j].id, m);
    }
  }

  /** A node other than the root of a subtree is held by a slot of a node of
      that subtree. */
  lemma {:induction false} HolderInSubtree(heap: Heap, a: nat, m: nat)
    requires Ordered(heap) && a < |heap| && InSubtree(heap, a, m) && m != a
    ensures exists p, k ::
      (0 <= p < |heap| && InSubtree(heap, a, p) &&
       0 <= k < |Children(heap[p])| && Children(heap[p])[k] == Ref(m))
    decreases |heap| - a
  {
    assert NodeOrdered(heap, a);
    var j :| 0 <= j < |Children(heap[a])| && Children(heap[a])[j].Ref? &&
      InSubtree(heap, Children(heap[a])[j].id, m);
    var c := Children(heap[a])[j].id;
    if m == c {
      assert InSubtree(heap, a, a);
    } else {
      HolderInSubtree(heap, c, m);
      var p, k :| 0 <= p < |heap| && InSubtree(heap, c, p) &&
        0 <= k < |Children(heap[p])| && Children(heap[p])[k] == Ref(m);
      assert InChildSubtree(heap, a, |Children(heap[a])|, p);
    }
  }

  /** In a tree, two subtrees that share a node are nested. */
  lemma {:induction false} SubtreesNest(heap: Heap, a: nat, b: nat, m: nat)
    requires Ordered(heap) && Tree(heap) && a < |heap| && b < |heap|
    requires InSubtree(heap, a, m) && InSubtree(heap, b, m)
    ensures InSubtree(heap, a, b) || InSubtree(heap, b, a)
    decreases m
  {
    if m != a && m != b {
      HolderInSubtree(heap, a, m);
      HolderInSubtree(heap, b, m);
      var p, k :| 0 <= p < |heap| && InSubtree(heap, a, p) &&
        0 <= k < |Children(heap[p])| && Children(heap[p])[k] == Ref(m);
      var q, l :| 0 <= q < |heap| && InSubtree(heap, b, q) &&
        0 <= l < |Children(heap[q])| && Children(heap[q])[l] == Ref(m);
      assert p == q;
      assert NodeOrdered(heap, p);
      SubtreesNest(heap, a, b, p);
    }
  }

  /** In a tree, the subtrees held by two different slots of a node are
      disjoint. */
  lemma SiblingsDisjoint(heap: Heap, id: nat, i: nat, j: nat, m: nat)
    requires Ordered(heap) && Tree(heap) && id < |heap|
    requires i < |Children(heap[id])| && j < |Children(heap[id])| && i != j
    requires Children(heap[id])[i].Ref? && Children(heap[id])[j].Ref?
    ensures NodeOrdered(heap, id)
    ensures !(InSubtree(heap, Children(heap[id])[i].id, m) && InSubtree(heap, Children(heap[id])[j].id, m))
  {
    assert NodeOrdered(heap, id);
    var ci := Children(heap[id])[i].id;
    var cj := Children(heap[id])[j].id;
    if InSubtree(heap, ci, m) && InSubtree(heap, cj, m) {
      SubtreesNest(heap, ci, cj, m);
      if InSubtree(heap, ci, cj) {
        NotAboveParent(heap, id, i, j);
      } else {
        NotAboveParent(heap, id, j, i);
      }
    }
  }

  /** The subtree of one slot of a node does not contain the container another
      slot of that node holds. */
  lemma NotAboveParent(heap: Heap, id: nat, i: nat, j: nat)
    requires Ordered(heap) && Tree(heap) && id < |heap|
    requires i < |Children(heap[id])| && j < |Children(heap[id])| && i != j
    requires Children(heap[id])[i].Ref? && Children(heap[id])[j].Ref?
    ensures NodeOrdered(heap, id)
    ensures !InSubtree(heap, Children(heap[id])[i].id, Children(heap[id])[j].id)
  {
    assert NodeOrdered(heap, id);
    var ci := Children(heap[id])[i].id;
    var cj := Children(heap[id])[j].id;
    if InSubtree(heap, ci, cj) {
      assert ci != cj;
      HolderInSubtree(heap, ci, cj);
      var p, k :| 0 <= p < |heap| && InSubtree(heap, ci, p) &&
        0 <= k < |Children(heap[p])| && Children(heap[p])[k] == Ref(cj);
      assert p == id;
      SubtreeBounds(heap, ci, p);
    }
  }

  /** A subtree depends only on its own nodes: another heap that agrees on them
      has the same subtree there. */
  lemma {:induction false} SubtreeFrame(heap: Heap, h: Heap, c: nat, m: int)
    requires Ordered(heap) && Ordered(h) && |h| == |heap| && c < |heap|
    requires forall x :: 0 <= x < |heap| && InSubtree(heap, c, x) ==> h[x] == heap[x]
    ensures InSubtree(h, c, m) <==> InSubtree(heap, c, m)
    decreases |heap| - c
  {
    assert InSubtree(heap, c, c);
    assert h[c] == heap[c];
    assert NodeOrdered(heap, c);
    var cs := Children(heap[c]);
    forall j | 0 <= j < |cs| && cs[j].Ref?
      ensures InSubtree(h, cs[j].id, m) <==> InSubtree(heap, cs[j].id, m)
    {
      forall x | 0 <= x < |heap| && InSubtree(heap, cs[j].id, x) ensures h[x] == heap[x] {
        assert InChildSubtree(heap, c, |cs|, x);
      }
      SubtreeFrame(heap, h, cs[j].id, m);
    }
    assert InChildSubtree(h, c, |cs|, m) <==> InChildSubtree(heap, c, |cs|, m);
  }

  /** Allocating an empty container keeps the heap a tree, and no slot holds a
      reference to it. */
  lemma GrowKeepsTree(heap: Heap, n: Node)
    requires Ordered(heap) && Tree(heap) && Children(n) == []
    ensures Tree(heap + [n]) && FreshSlot(heap + [n], Ref(|heap|))
  {
    var h := heap + [n];
    forall a, i | 0 <= a < |h| && 0 <= i < |Children(h[a])| ensures Children(h[a])[i] != Ref(|heap|) {
      assert a < |heap|;
      assert h[a] == heap[a] && NodeOrdered(heap, a);
    }
  }

  /** Replacing a node by one that holds only references the node held before,
      or one added reference, each at most once, keeps the heap a tree. */
  lemma ReplaceKeepsTree(heap: Heap, id: nat, n: Node, added: Slot)
    requires Tree(heap) && id < |heap| && FreshSlot(heap, added)
    requires forall i :: 0 <= i < |Children(n)| && Children(n)[i].Ref? ==>
      Children(n)[i] == added || Children(n)[i] in Children(heap[id])
    requires forall i, j :: 0 <= i < j < |Children(n)| && Children(n)[i].Ref? ==>
      Children(n)[i] != Children(n)[j]
    ensures Tree(heap[id := n])
  {
  }

  /** Overwriting one slot of an array with a non-reference keeps the heap a
      tree. */
  lemma ArraySlotKeepsTree(heap: Heap, id: nat, i: nat, s: Slot)
    requires Tree(heap) && id < |heap| && heap[id].ArrayNode? && i < |heap[id].items| && !s.Ref?
    ensures Tree(heap[id := ArrayNode(heap[id].items[i := s])])
  {
    var items := heap[id].items;
    var r := items[i := s];
    forall j, k | 0 <= j < k < |r| && r[j].Ref? ensures r[j] != r[k] {
      assert Children(heap[id])[j] == r[j];
      if k != i { assert Children(heap[id])[k] == r[k]; }
    }
    forall j | 0 <= j < |r| && r[j].Ref? ensures r[j] in items {
      assert r[j] == items[j];
    }
    ReplaceKeepsTree(heap, id, ArrayNode(r), Absent);
  }

  /** Appending a slot that nothing holds yet to an array keeps the heap a tree. */
  lemma ArrayAppendKeepsTree(heap: Heap, id: nat, s: Slot)
    requires Tree(heap) && id < |heap| && heap[id].ArrayNode? && FreshSlot(heap, s)
    ensures Tree(heap[id := ArrayNode(heap[id].items + [s])])
  {
    var items := heap[id].items;
    var r := items + [s];
    forall j, k | 0 <= j < k < |r| && r[j].Ref? ensures r[j] != r[k] {
      assert Children(heap[id])[j] == r[j];
      if k < |items| { assert Children(heap[id])[k] == r[k]; }
    }
    forall j | 0 <= j < |r| && r[j].Ref? ensures r[j] == s || r[j] in items {
      if j < |items| { assert r[j] == items[j]; }
    }
    ReplaceKeepsTree(heap, id, ArrayNode(r), s);
  }

  /** Rewriting an object's properties so that every reference left is one of
      its properties or a added slot under `key`, with keys still distinct,
      keeps the heap a tree. */
  lemma ObjectUpdateKeepsTree(heap: Heap, id: nat, r: seq<Prop>, key: string, added: Slot)
    requires Tree(heap) && id < |heap| && heap[id].ObjectNode? && FreshSlot(heap, added)
    requires DistinctKeys(r)
    requires forall i :: 0 <= i < |r| && r[i].val.Ref? ==> r[i] == Prop(key, added) || r[i] in heap[id].props
    ensures Tree(heap[id := ObjectNode(r)])
  {
    var props := heap[id].props;
    var n := ObjectNode(r);
    forall i | 0 <= i < |Children(n)| && Children(n)[i].Ref?
      ensures Children(n)[i] == added || Children(n)[i] in Children(heap[id])
    {
      if r[i] != Prop(key, added) {
        var k :| 0 <= k < |props| && props[k] == r[i];
        assert Children(heap[id])[k] == Children(n)[i];
      }
    }
    forall i, j | 0 <= i < j < |r| && r[i].val.Ref? ensures r[i].val != r[j].val {
      assert r[i].key != r[j].key;
      AddedNotHeld(heap, id, added, r[i]);
      AddedNotHeld(heap, id, added, r[j]);
      PropsHoldDistinctRefs(heap, id, r[i], r[j]);
    }
    assert forall i :: 0 <= i < |r| ==> Children(n)[i] == r[i].val;
    ReplaceKeepsTree(heap, id, n, added);
  }

  /** A property of node id does not hold a reference no slot holds. */
  lemma AddedNotHeld(heap: Heap, id: nat, added: Slot, p: Prop)
    requires id < |heap| && heap[id].ObjectNode? && FreshSlot(heap, added)
    ensures p in heap[id].props && added.Ref? ==> p.val != added
  {
    if p in heap[id].props {
      var l :| 0 <= l < |heap[id].props| && heap[id].props[l] == p;
      assert Children(heap[id])[l] == p.val;
    }
  }

  /** In a tree, two properties of one object with different keys hold
      different references. */
  lemma PropsHoldDistinctRefs(heap: Heap, id: nat, p: Prop, q: Prop)
    requires Tree(heap) && id < |heap| && heap[id].ObjectNode?
    ensures p in heap[id].props && q in heap[id].props && p.key != q.key && p.val.Ref? ==> p.val != q.val
  {
    var props := heap[id].props;
    if p in props && q in props {
      var k :| 0 <= k < |props| && props[k] == p;
      var l :| 0 <= l < |props| && props[l] == q;
      assert Children(heap[id])[k] == p.val && Children(heap[id])[l] == q.val;
    }
  }
}
