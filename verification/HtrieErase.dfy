/**
 Removing one element, and the empty nodes that leaves behind (inc/tsl/htrie_hash.h:1419-1494).
 */
module HtrieErase {
  import opened HtrieNode
  import opened KeyOrder
  import opened Htrie
  import opened HtrieIterator
  import opened HtrieTraversal

  /** Nodes that hold nothing can go. */
  lemma FilledDrop<T>(repr: set<Node<T>>, repr': set<Node<T>>, contents: map<Key, T>, owner: map<Key, Node<T>>)
    requires Htrie.Filled(repr, contents, owner) && repr' <= repr
    requires forall n :: n in repr - repr' ==> n.value == None && n.bucket == []
    ensures Htrie.Filled(repr', contents, owner)
  {
    hide Htrie.Known;
  }

  /** A node without children, whatever else it holds. */
  ghost predicate Childless<T>(n: Node<T>)
    reads n`children
  {
    forall c :: 0 <= c < |n.children| ==> n.children[c] == null
  }

  /** A childless node has no descendants. */
  lemma NothingBelow<T>(root: Node?<T>, repr: set<Node<T>>, e: Node<T>)
    requires Htrie.Linked(root, repr) && e in repr && Childless(e)
    ensures forall n :: n in repr ==> n.parent != e
  {
  }

  lemma OnlyChildOf<T>(root: Node?<T>, repr: set<Node<T>>, p: Node<T>, e: Node<T>)
    requires Htrie.Linked(root, repr) && e in repr && e.parent == p && p in repr && p.Slotted() && p.isTrie
    requires forall c, d :: !p.TwoChildren(c, d)
    ensures forall n :: n in repr && n.parent == p ==> n == e
  {
    forall n | n in repr && n.parent == p
      ensures n == e
    {
      var c, d := n.childOf, e.childOf;
      assert p.children[c] == n && p.children[d] == e && !p.TwoChildren(c, d) && !p.TwoChildren(d, c);
    }
  }

  /** A childless root is the whole tree. */
  lemma OnlyRoot<T>(t: Htrie<T>, e: Node<T>)
    requires Htrie.Linked(t.root, t.repr) && e in t.repr && Childless(e) && e.parent == null
    ensures t.repr == {e}
  {
    forall n | n in t.repr
      ensures n == e
    {
      if n.path == [] {
        t.Unique(n, e);
      } else {
        var a := t.Ancestor(n, 0);
        t.Unique(a, e);
      }
    }
  }

  /** A root with one child, which is empty, is the whole tree apart from that child. */
  lemma OnlyChild<T>(t: Htrie<T>, p: Node<T>, e: Node<T>)
    requires Htrie.Linked(t.root, t.repr) && e in t.repr && Childless(e) && e.parent == p && p.parent == null
    requires p in t.repr && p.Slotted() && p.isTrie
    requires forall c, d :: !p.TwoChildren(c, d)
    ensures t.repr == {p, e}
  {
    forall n | n in t.repr
      ensures n == p || n == e
    {
      if n.path == [] {
        t.Unique(n, p);
      } else {
        var a := t.Ancestor(n, 0);
        t.Unique(a, p);
        var c, d := n.path[0], e.childOf;
        assert p.children[d] == e && !p.TwoChildren(c, d) && !p.TwoChildren(d, c);
        var b := t.Ancestor(n, 1);
        t.Unique(b, e);
      }
    }
  }

  /** `p` has a value, or a child apart from the one at `skip`. */
  ghost predicate StaysFull<T>(p: Node<T>, skip: Byte)
    requires |p.children| == ALPHABET_SIZE
    reads p`value, p`children
  {
    p.value.Some? || exists c: Byte :: c != skip && p.children[c] != null
  }

  lemma TwoStayFull<T>(p: Node<T>, skip: Byte)
    requires |p.children| == ALPHABET_SIZE
    requires p.value.Some? || exists c, d :: p.TwoChildren(c, d)
    ensures StaysFull(p, skip)
  {
    if !p.value.Some? {
      var c, d :| p.TwoChildren(c, d);
      var b: Byte := if c == skip then d else c;
      assert b != skip && p.children[b] != null;
    }
  }

  /** child(c).reset(nullptr) for an empty node. */
  method ClearSlot<T>(ghost root: Node?<T>, ghost repr: set<Node<T>>, p: Node<T>, e: Node<T>)
    requires Htrie.Linked(root, repr) && e in repr && Childless(e) && e.parent == p
    requires p in repr && p.Slotted() && p.isTrie
    modifies p`children
    ensures Htrie.Linked(root, repr - {e}) && p.children == old(p.children)[e.childOf := null]
  {
    NothingBelow(root, repr, e);
    p.ResetChild(e.childOf);
  }

  method Unlink<T>(t: Htrie<T>, p: Node<T>, e: Node<T>)
    requires Htrie.Linked(t.root, t.repr) && e in t.repr && Childless(e) && e.parent == p
    requires Htrie.Compact(t.repr, e)
    requires p in t.repr && p.Slotted() && p.isTrie && StaysFull(p, e.childOf)
    modifies t`repr, p`children
    ensures t.repr == old(t.repr) - {e} && Htrie.Linked(t.root, t.repr) && Htrie.Compact(t.repr, null)
  {
    hide Htrie.Linked;
    ClearSlot(t.root, t.repr, p, e);
    t.repr := t.repr - {e};
    if p.value == None {
      ghost var c: Byte :| c != e.childOf && old(p.children[c]) != null;
      assert p.children[c] != null;
    }
  }

  /** The slot of a node is given to another. */
  method TakePlace<T>(g: Node<T>, p: Node<T>, e: Node<T>)
    requires g.isTrie && |g.children| == ALPHABET_SIZE && e != g && e != p
    modifies g`children, e`parent, e`childOf, e`path
    ensures g.children == old(g.children)[p.childOf := e]
    ensures e.parent == g && e.childOf == p.childOf && e.path == p.path
  {
    g.SetChild(p.childOf, e);
    e.path := p.path;
  }

  /** clear_empty_nodes(), lines 1488-1491: the empty node takes the place of its parent. */
  method MoveUp<T>(ghost root: Node?<T>, ghost repr: set<Node<T>>, p: Node<T>, e: Node<T>)
    requires Htrie.Linked(root, repr) && e in repr && Childless(e) && e.parent == p && p.parent != null
    requires p in repr && p.isTrie && p.Slotted() && p.parent in repr && p.parent.Slotted() && p.parent.isTrie
    requires p != e && p.parent != e && p.parent != p
    requires forall c, d :: !p.TwoChildren(c, d)
    modifies p.parent`children, e`parent, e`childOf, e`path
    ensures Htrie.Linked(root, repr - {p})
    ensures e.path == p.path && Childless(e) && p.parent.children == old(p.parent.children)[p.childOf := e]
  {
    NothingBelow(root, repr, e);
    OnlyChildOf(root, repr, p, e);
    TakePlace(p.parent, p, e);
    forall n, c: Byte | n in repr - {p} && n.isTrie && n.children[c] != null
      ensures n.children[c] in repr - {p} && n.children[c].parent == n && n.children[c].childOf == c
    {
      if n != p.parent || c != p.childOf {
        assert n.children[c] == old(n.children[c]) && old(n.children[c].parent) == n && old(n.children[c].childOf) == c;
        assert n.children[c] != p && n.children[c] != e;
      }
    }
  }

  method MoveUpCompactly<T>(t: Htrie<T>, p: Node<T>, e: Node<T>)
    requires Htrie.Linked(t.root, t.repr) && e in t.repr && Childless(e) && e.parent == p && p.parent != null
    requires Htrie.Compact(t.repr, e)
    requires p in t.repr && p.isTrie && p.Slotted() && p.parent in t.repr && p.parent.Slotted() && p.parent.isTrie
    requires p != e && p.parent != e && p.parent != p
    requires forall c, d :: !p.TwoChildren(c, d)
    modifies t`repr, p.parent`children, e`parent, e`childOf, e`path
    ensures t.repr == old(t.repr) - {p} && Htrie.Linked(t.root, t.repr) && Htrie.Compact(t.repr, e)
    ensures e.path == p.path && Childless(e)
  {
    hide Htrie.Linked;
    MoveUp(t.root, t.repr, p, e);
    t.repr := t.repr - {p};
    assert p.parent.children[p.childOf] == e;
  }

  lemma ParentFacts<T>(t: Htrie<T>, e: Node<T>)
    requires Htrie.Linked(t.root, t.repr) && e in t.repr
    ensures e.parent == null ==> e == t.root
    ensures e.parent != null ==>
      var p := e.parent;
      p in t.repr && p.isTrie && p.Slotted() && p != e && |p.path| < |e.path| && p.children[e.childOf] == e
    ensures e.parent != null && e.parent.parent != null ==>
      var g := e.parent.parent;
      g in t.repr && g.isTrie && g.Slotted() && g != e && g != e.parent && e.parent != g.parent
  {
  }

  /** With only empty nodes in the tree, there is nothing in the map. */
  lemma NoOwner<T>(repr: set<Node<T>>, contents: map<Key, T>, owner: map<Key, Node<T>>)
    requires Htrie.Filled(repr, contents, owner)
    requires forall n :: n in repr ==> n.value == None && n.bucket == []
    ensures contents == map[]
  {
    FilledDrop(repr, {}, contents, owner);
    assert owner.Keys == {};
  }

  /** m_root.reset(nullptr), lines 1469-1471 and 1474-1477. */
  method ResetRoot<T>(t: Htrie<T>, e: Node<T>)
    requires Htrie.Filled(t.repr - {e}, t.contents, t.owner)
    requires forall n :: n in t.repr - {e} ==> n.value == None && n.bucket == []
    modifies t`root, t`repr
    ensures Htrie.Linked(t.root, t.repr) && Htrie.Filled(t.repr, t.contents, t.owner) && Htrie.Compact(t.repr, null)
    ensures t.repr == {} && t.contents == map[]
  {
    NoOwner(t.repr - {e}, t.contents, t.owner);
    t.root := null;
    t.repr := {};
    assert t.owner.Keys == t.contents.Keys;
  }

  /**
   clear_empty_nodes(): takes `emptyNode` out of the tree, and every ancestor that this leaves with
   neither value nor child. The maps are those of the tree without `emptyNode`: callers should pass
   a node that holds nothing, but the code itself looks only at the parents.
   */
  method ClearEmptyNodes<T>(t: Htrie<T>, emptyNode: Node<T>)
    requires Htrie.Linked(t.root, t.repr) && emptyNode in t.repr && Childless(emptyNode)
    requires Htrie.Filled(t.repr - {emptyNode}, t.contents, t.owner)
    requires Htrie.Compact(t.repr, emptyNode)
    modifies t`root, t`repr, t.repr`children, emptyNode`parent, emptyNode`childOf, emptyNode`path
    ensures Htrie.Linked(t.root, t.repr) && Htrie.Filled(t.repr, t.contents, t.owner) && Htrie.Compact(t.repr, null)
    ensures t.repr <= old(t.repr) - {emptyNode}
    ensures forall n :: n in t.repr ==>
      n.path == old(n.path) && n.value == old(n.value) && n.bucket == old(n.bucket) && n.parent == old(n.parent)
    decreases |emptyNode.path|
  {
    hide Htrie.Linked, Htrie.Filled, Htrie.Compact, Childless;
    ParentFacts(t, emptyNode);
    var parent := emptyNode.parent;
    if parent == null {
      OnlyRoot(t, emptyNode);
      ResetRoot(t, emptyNode);
      return;
    }
    var children := parent.NbChildren();
    if parent.value != None || children > 1 {
      TwoStayFull(parent, emptyNode.childOf);
      Unlink(t, parent, emptyNode);
    } else if parent.parent == null {
      OnlyChild(t, parent, emptyNode);
      ParentHolds(t, parent, emptyNode);
      ResetRoot(t, emptyNode);
    } else {
      ParentHolds(t, parent, emptyNode);
      FilledDrop(t.repr - {emptyNode}, t.repr - {emptyNode} - {parent}, t.contents, t.owner);
      MoveUpCompactly(t, parent, emptyNode);
      assert t.repr - {emptyNode} == old(t.repr) - {emptyNode} - {parent};
      ClearEmptyNodes(t, emptyNode);
    }
  }

  lemma ParentHolds<T>(t: Htrie<T>, p: Node<T>, e: Node<T>)
    requires Htrie.Filled(t.repr - {e}, t.contents, t.owner) && p in t.repr && p != e && p.isTrie
    ensures p.bucket == []
  {
    assert Htrie.Known(p, t.contents, t.owner);
  }

  // ---------------------------------------------------------------- one element

  /** The maps after `n` lost its pair with key `k`. */
  lemma FilledRemove<T>(repr: set<Node<T>>, contents: map<Key, T>, owner: map<Key, Node<T>>, n: Node<T>, k: Key)
    requires contents.Keys == owner.Keys && k in owner && owner[k] == n
    requires forall m :: m in repr && m != n ==> Htrie.Known(m, contents, owner)
    requires Htrie.Known(n, contents - {k}, owner - {k})
    requires forall l :: l in owner && l != k ==> owner[l] in repr && Htrie.Stores(owner[l], l)
    ensures Htrie.Filled(repr, contents - {k}, owner - {k})
  {
    hide Htrie.Known, Htrie.Stores;
    forall m | m in repr && m != n
      ensures Htrie.Known(m, contents - {k}, owner - {k})
    {
      Htrie.KnownFrame(m, contents, owner, contents - {k}, owner - {k});
    }
  }

  lemma FilledFacts<T>(repr: set<Node<T>>, contents: map<Key, T>, owner: map<Key, Node<T>>)
    requires Htrie.Filled(repr, contents, owner)
    ensures contents.Keys == owner.Keys
    ensures forall m :: m in repr ==> Htrie.Known(m, contents, owner)
    ensures forall l :: l in owner ==> owner[l] in repr && Htrie.Stores(owner[l], l)
  {
  }

  /** val_node().reset(nullptr) */
  method DropValue<T>(t: Htrie<T>, n: Node<T>)
    requires Htrie.Filled(t.repr, t.contents, t.owner) && Htrie.Compact(t.repr, null)
    requires n in t.repr && n.isTrie && n.value.Some?
    modifies n`value
    ensures Htrie.Filled(t.repr, t.contents - {n.path}, t.owner - {n.path}) && Htrie.Compact(t.repr, n)
    ensures n.value == None && n.bucket == []
  {
    hide Htrie.Filled;
    FilledFacts(t.repr, t.contents, t.owner);
    assert Htrie.Known(n, t.contents, t.owner);
    n.value := None;
    FilledRemove(t.repr, t.contents, t.owner, n, n.path);
  }

  function Without<T>(b: Bucket<T>, i: nat): (b': Bucket<T>)
    requires i < |b|
    ensures |b'| == |b| - 1
  {
    b[..i] + b[i + 1..]
  }

  /** array_hash().erase(it) on one leaf. */
  method EraseInLeaf<T>(n: Node<T>, i: nat, ghost contents: map<Key, T>, ghost owner: map<Key, Node<T>>)
    requires !n.isTrie && i < |n.bucket| && Htrie.Known(n, contents, owner)
    modifies n`bucket
    ensures n.bucket == Without(old(n.bucket), i)
    ensures var k := n.path + old(n.bucket[i]).0;
      && Htrie.Known(n, contents - {k}, owner - {k})
      && forall l :: l != k && old(Htrie.Stores(n, l)) ==> Htrie.Stores(n, l)
  {
    ghost var b := n.bucket;
    ghost var k := n.path + b[i].0;
    n.bucket := Without(n.bucket, i);
    forall j | 0 <= j < |b| && j != i
      ensures n.bucket[if j < i then j else j - 1] == b[j] && n.path + b[j].0 != k
    {
      assert (n.path + b[j].0)[|n.path|..] == b[j].0;
      assert k[|n.path|..] == b[i].0;
    }
    forall l | l != k && old(Htrie.Stores(n, l))
      ensures Htrie.Stores(n, l)
    {
      var j :| 0 <= j < |b| && b[j].0 == l[|n.path|..];
      assert l == n.path + b[j].0;
      assert n.bucket[if j < i then j else j - 1].0 == b[j].0;
    }
  }

  method DropEntry<T>(t: Htrie<T>, n: Node<T>, i: nat)
    requires Htrie.Filled(t.repr, t.contents, t.owner) && Htrie.Compact(t.repr, n)
    requires n in t.repr && !n.isTrie && i < |n.bucket|
    modifies n`bucket
    ensures n.bucket == Without(old(n.bucket), i)
    ensures var k := n.path + old(n.bucket[i]).0;
      Htrie.Filled(t.repr, t.contents - {k}, t.owner - {k}) && k in t.contents
    ensures Htrie.Compact(t.repr, n)
  {
    hide Htrie.Filled, Htrie.Known, Htrie.Stores, Without;
    FilledFacts(t.repr, t.contents, t.owner);
    KnownEntry(n, i, t.contents, t.owner);
    ghost var k := n.path + n.bucket[i].0;
    EraseInLeaf(n, i, t.contents, t.owner);
    FilledRemove(t.repr, t.contents, t.owner, n, k);
  }

  lemma KnownEntry<T>(n: Node<T>, i: nat, contents: map<Key, T>, owner: map<Key, Node<T>>)
    requires Htrie.Known(n, contents, owner) && i < |n.bucket|
    ensures var k := n.path + n.bucket[i].0; k in owner && owner[k] == n && k in contents
  {
  }

  lemma CompactBut<T>(repr: set<Node<T>>, n: Node<T>)
    requires Htrie.Compact(repr, null)
    ensures Htrie.Compact(repr, n)
  {
  }

  lemma HollowFacts<T>(n: Node<T>)
    requires n.Hollow()
    ensures Childless(n) && n.value == None && n.bucket == []
  {
  }

  lemma CompactAnyway<T>(repr: set<Node<T>>, n: Node<T>)
    requires Htrie.Compact(repr, n) && !n.Hollow()
    ensures Htrie.Compact(repr, null)
  {
  }

  lemma CardinalityDrops<T>(contents: map<Key, T>, k: Key)
    requires k in contents
    ensures |contents - {k}| == |contents| - 1
  {
    assert (contents - {k}).Keys == contents.Keys - {k};
  }

  lemma ValueFacts<T>(t: Htrie<T>, n: Node<T>)
    requires t.Valid() && n in t.repr && n.isTrie && n.value.Some?
    ensures n.Slotted() && n.path in t.contents && t.owner[n.path] == n
  {
    assert Htrie.Known(n, t.contents, t.owner);
  }

  /** The element with key `k` is counted no more. */
  method Forget<T>(t: Htrie<T>, ghost k: Key)
    requires t.nbElements == |t.contents| && k in t.contents
    requires Htrie.Linked(t.root, t.repr) && Htrie.Filled(t.repr, t.contents - {k}, t.owner - {k})
    modifies t`nbElements, t`contents, t`owner
    ensures t.contents == old(t.contents) - {k} && t.owner == old(t.owner) - {k} && t.nbElements == |t.contents|
    ensures Htrie.Linked(t.root, t.repr) && Htrie.Filled(t.repr, t.contents, t.owner)
  {
    hide Htrie.Linked, Htrie.Filled;
    CardinalityDrops(t.contents, k);
    t.contents, t.owner := t.contents - {k}, t.owner - {k};
    t.nbElements := t.nbElements - 1;
  }

  /** erase(), lines 1431-1433 and 1441-1443: a node that holds nothing any more is taken out. */
  method Settle<T>(t: Htrie<T>, n: Node<T>, none: bool)
    requires Htrie.Linked(t.root, t.repr) && Htrie.Filled(t.repr, t.contents, t.owner) && Htrie.Compact(t.repr, n)
    requires n in t.repr && t.nbElements == |t.contents| && (none <==> n.Hollow())
    modifies t`root, t`repr, t.repr`children, n`parent, n`childOf, n`path
    ensures t.Valid() && t.repr <= old(t.repr) && (!none ==> n in t.repr)
    ensures forall m :: m in t.repr ==> m.path == old(m.path) && m.parent == old(m.parent)
  {
    hide Htrie.Linked, Htrie.Filled, Htrie.Compact;
    if none {
      HollowFacts(n);
      FilledDrop(t.repr, t.repr - {n}, t.contents, t.owner);
      ClearEmptyNodes(t, n);
    } else {
      CompactAnyway(t.repr, n);
    }
  }

  /** erase(), lines 1427-1435. */
  method RemoveValue<T>(t: Htrie<T>, n: Node<T>)
    requires t.Valid() && n in t.repr && n.isTrie && n.value.Some?
    modifies t`root, t`repr, t`nbElements, t`contents, t`owner, t.repr
    ensures t.Valid() && t.repr <= old(t.repr)
    ensures t.burstThreshold == old(t.burstThreshold)
    ensures forall m :: m in t.repr ==>
      m.path == old(m.path) && m.parent == old(m.parent) && |m.bucket| <= |old(m.bucket)|
    ensures t.contents == old(t.contents) - {old(n.path)} && t.owner == old(t.owner) - {old(n.path)}
    ensures forall m :: m in t.repr && m != n ==> m.value == old(m.value) && m.bucket == old(m.bucket)
  {
    hide Htrie.Linked, Htrie.Filled, Htrie.Compact;
    ValueFacts(t, n);
    DropValue(t, n);
    Forget(t, n.path);
    var none := n.Empty();
    Settle(t, n, none);
  }

  /** erase(), lines 1437-1451: `i` is the index of the element in the bucket of `n`. */
  method RemoveEntry<T>(t: Htrie<T>, n: Node<T>, i: nat)
    requires t.Valid() && n in t.repr && !n.isTrie && i < |n.bucket|
    modifies t`root, t`repr, t`nbElements, t`contents, t`owner, t.repr
    ensures t.Valid() && t.repr <= old(t.repr)
    ensures t.burstThreshold == old(t.burstThreshold)
    ensures forall m :: m in t.repr ==>
      m.path == old(m.path) && m.parent == old(m.parent) && |m.bucket| <= |old(m.bucket)|
    ensures var k := old(n.path + n.bucket[i].0);
      t.contents == old(t.contents) - {k} && t.owner == old(t.owner) - {k}
    ensures forall m :: m in t.repr && m != n ==> m.value == old(m.value) && m.bucket == old(m.bucket)
    ensures n.bucket == Without(old(n.bucket), i)
    ensures i < |n.bucket| ==> n in t.repr
  {
    hide Htrie.Linked, Htrie.Filled, Htrie.Compact;
    LeafFacts(t, n);
    ghost var k := n.path + n.bucket[i].0;
    CompactBut(t.repr, n);
    DropEntry(t, n, i);
    Forget(t, k);
    Settle(t, n, n.bucket == []);
  }

  lemma LeafFacts<T>(t: Htrie<T>, n: Node<T>)
    requires t.Valid() && n in t.repr && !n.isTrie
    ensures n.Slotted() && n.value == None
  {
    assert Htrie.Known(n, t.contents, t.owner);
  }

  /** A holder is found again in the tree after the removal of an element of another node. */
  lemma HolderHasKey<T>(t: Htrie<T>, r: Node<T>) returns (l: Key)
    requires t.Valid() && r in t.repr && Holder(t, r)
    ensures l in t.owner && t.owner[l] == r
  {
    assert Htrie.Known(r, t.contents, t.owner) && r.Slotted() && !r.Hollow();
    l := if r.isTrie then r.path else r.path + r.bucket[0].0;
  }

  lemma OwnersStay<T>(t: Htrie<T>)
    requires t.Wf()
    ensures forall l :: l in t.owner ==> t.owner[l] in t.repr && l in t.contents
  {
  }

  lemma BeforeIrreflexive(p: Key)
    ensures !Before(p, p)
  {
  }

  /** Where each key is kept. */
  ghost function Paths<T>(t: Htrie<T>): map<Key, Key>
    reads t, t.owner.Values
  {
    map l | l in t.owner :: t.owner[l].path
  }

  ghost function From(paths: map<Key, Key>, p: Key): set<Key> {
    set l | l in paths && AtOrAfter(p, paths[l])
  }

  lemma RemainingFromStart<T>(t: Htrie<T>, it: Iterator<T>, r: Node<T>)
    requires t.Valid() && r in t.repr && Holder(t, r) && StartsAt(it, r)
    ensures Standing(t, it) && Remaining(t, it) == From(Paths(t), r.path)
  {
    StandingAfter(t, r, it);
    hide Htrie.Linked, Htrie.Filled, Htrie.Compact, Ahead, AtOrAfter;
    KeysAgree(t);
    forall l | l in t.owner
      ensures Ahead(t, it, l) <==> AtOrAfter(r.path, t.owner[l].path)
    {
      AheadFromStart(t, it, r, l);
    }
  }

  /** Where operator++ leads when it leaves a node, and what lies ahead from there. */
  ghost predicate Follows<T>(t: Htrie<T>, next: Iterator<T>, r: Node?<T>, rest: set<Key>)
    reads t, t.repr, t.owner.Values
  {
    if r == null then IsEnd(next) && rest == {}
    else r in t.repr && Holder(t, r) && StartsAt(next, r) && rest == From(Paths(t), r.path)
  }

  lemma FromWithout(paths: map<Key, Key>, k: Key, p: Key)
    requires k !in From(paths, p)
    ensures From(paths - {k}, p) == From(paths, p)
  {
    hide AtOrAfter;
  }

  lemma FollowsRemaining<T>(t: Htrie<T>, next: Iterator<T>, r: Node?<T>, rest: set<Key>)
    requires t.Valid() && Follows(t, next, r, rest)
    ensures (IsEnd(next) || Standing(t, next)) && Remaining(t, next) == rest
  {
    if r == null {
      NothingAhead(t, next);
    } else {
      RemainingFromStart(t, next, r);
    }
  }

  /** Standing at the last element of the node `n`, operator++ goes on to the next holder. */
  method StepOff<T>(t: Htrie<T>, pos: Iterator<T>)
    returns (next: Iterator<T>, ghost r: Node?<T>, ghost rest: set<Key>, ghost l: Key)
    requires t.Valid() && Standing(t, pos) && pos.filter == []
    requires !pos.readValue ==> pos.index + 1 == |pos.hashNode.bucket|
    ensures next.filter == [] && Follows(t, next, r, rest)
    ensures rest == Remaining(t, pos) - {ElementKey(t, pos)} && ElementKey(t, pos) !in rest
    ensures t.contents.Keys == t.owner.Keys
    ensures r != null ==> r != NodeOf(t, pos) && l in t.owner && t.owner[l] == r && l != ElementKey(t, pos)
  {
    hide Htrie.Linked, Htrie.Filled, Htrie.Compact, Ahead, NextHolder, Before, AtOrAfter, ElementKey;
    ghost var j;
    next, j, r := Increment(t, pos);
    AheadStep(t, pos, next, j, r);
    NextApart(t, NodeOf(t, pos), r);
    StandingFacts(t, pos);
    KeysAgree(t);
    l := [];
    if r != null {
      l := HolderHasKey(t, r);
      RemainingFromStart(t, next, r);
    } else {
      NothingAhead(t, next);
    }
    rest := Remaining(t, next);
  }

  /** Takes out the element at `pos`. */
  method RemoveAt<T>(t: Htrie<T>, pos: Iterator<T>)
    requires t.Valid() && Standing(t, pos)
    modifies t`root, t`repr, t`nbElements, t`contents, t`owner, t.repr
    ensures t.Valid() && t.burstThreshold == old(t.burstThreshold) && t.repr <= old(t.repr)
    ensures t.contents == old(t.contents) - {old(ElementKey(t, pos))}
    ensures t.owner == old(t.owner) - {old(ElementKey(t, pos))}
    ensures forall m :: m in t.repr ==>
      m.path == old(m.path) && m.parent == old(m.parent) && |m.bucket| <= |old(m.bucket)|
    ensures forall m :: m in t.repr && m != old(NodeOf(t, pos)) ==> m.value == old(m.value)
    ensures forall l :: l in t.owner ==> t.owner[l] in t.repr
    ensures !pos.readValue ==> pos.hashNode.bucket == Without(old(pos.hashNode.bucket), pos.index)
    ensures !pos.readValue && pos.index < |pos.hashNode.bucket| ==> pos.hashNode in t.repr
  {
    hide Htrie.Linked, Htrie.Filled, Htrie.Compact, Without;
    if pos.readValue {
      RemoveValue(t, pos.trieNode);
    } else {
      RemoveEntry(t, pos.hashNode, pos.index);
    }
    OwnersStay(t);
  }

  /** The element at `pos`, in the middle of a leaf, is taken out. */
  method RemoveInner<T>(t: Htrie<T>, pos: Iterator<T>)
    requires t.Valid() && Standing(t, pos) && !pos.readValue && pos.index + 1 < |pos.hashNode.bucket|
    modifies t`root, t`repr, t`nbElements, t`contents, t`owner, t.repr
    ensures t.Valid() && t.burstThreshold == old(t.burstThreshold) && t.repr <= old(t.repr)
    ensures t.contents == old(t.contents) - {old(ElementKey(t, pos))}
    ensures forall m :: m in t.repr ==> |m.bucket| <= |old(m.bucket)|
    ensures Paths(t) == old(Paths(t)) - {old(ElementKey(t, pos))}
    ensures var n := pos.hashNode;
      n in t.repr && n.path == old(n.path) && n.parent == old(n.parent) && n.bucket == Without(old(n.bucket), pos.index)
  {
    hide Htrie.Linked, Htrie.Filled, Htrie.Compact, Without, ElementKey;
    ghost var paths, k := Paths(t), ElementKey(t, pos);
    RemoveAt(t, pos);
    assert Paths(t) == paths - {k};
  }

  /** Takes out the element at `pos`; the iterator made ready before, behind its node, stays good. */
  method RemoveBefore<T>(t: Htrie<T>, pos: Iterator<T>, ghost next: Iterator<T>, ghost r: Node?<T>, ghost rest: set<Key>, ghost l: Key)
    requires t.Valid() && Standing(t, pos) && Follows(t, next, r, rest) && ElementKey(t, pos) !in rest
    requires r != null ==> r != NodeOf(t, pos) && l in t.owner && t.owner[l] == r && l != ElementKey(t, pos)
    modifies t`root, t`repr, t`nbElements, t`contents, t`owner, t.repr
    ensures t.Valid() && t.burstThreshold == old(t.burstThreshold) && t.repr <= old(t.repr)
    ensures t.contents == old(t.contents) - {old(ElementKey(t, pos))}
    ensures forall m :: m in t.repr ==> |m.bucket| <= |old(m.bucket)|
    ensures Follows(t, next, r, rest)
  {
    hide Htrie.Linked, Htrie.Filled, Htrie.Compact, From, ElementKey, NodeOf;
    ghost var paths, k := Paths(t), ElementKey(t, pos);
    RemoveAt(t, pos);
    if r != null {
      assert t.owner[l] == r;
      assert Paths(t) == paths - {k};
      FromWithout(paths, k, r.path);
    }
  }

  /** erase(pos), standing at a trie node's value */
  method EraseValue<T>(t: Htrie<T>, pos: Iterator<T>) returns (next: Iterator<T>)
    requires t.Valid() && Standing(t, pos) && pos.readValue && pos.filter == []
    modifies t`root, t`repr, t`nbElements, t`contents, t`owner, t.repr
    ensures t.Valid() && t.burstThreshold == old(t.burstThreshold) && t.repr <= old(t.repr)
    ensures forall m :: m in t.repr ==> |m.bucket| <= |old(m.bucket)|
    ensures t.contents == old(t.contents) - {old(ElementKey(t, pos))}
    ensures next.filter == [] && (IsEnd(next) || Standing(t, next))
    ensures Remaining(t, next) == old(Remaining(t, pos)) - {old(ElementKey(t, pos))}
  {
    hide Htrie.Linked, Htrie.Filled, Htrie.Compact, Ahead, Remaining, Follows, From;
    ghost var r, rest, l;
    next, r, rest, l := StepOff(t, pos);
    RemoveBefore(t, pos, next, r, rest, l);
    FollowsRemaining(t, next, r, rest);
  }

  lemma NextInLeaf<T>(t: Htrie<T>, pos: Iterator<T>)
    requires Standing(t, pos) && !pos.readValue && pos.filter == [] && pos.index + 1 < |pos.hashNode.bucket|
    ensures Advanced(t, pos, pos.(index := pos.index + 1), pos.index + 1, null)
  {
  }

  /** What lies ahead of an element in the middle of a bucket. */
  ghost function FromEntry<T>(paths: map<Key, Key>, p: Key, b: Bucket<T>, i: nat): set<Key> {
    set l | l in paths && (Before(p, paths[l]) || (paths[l] == p && InBucketFrom(p, b, i, l)))
  }

  ghost predicate InBucketFrom<T>(p: Key, b: Bucket<T>, i: nat, l: Key) {
    exists j :: i <= j < |b| && l == p + b[j].0
  }

  lemma RemainingFromEntry<T>(t: Htrie<T>, it: Iterator<T>)
    requires t.Wf() && Standing(t, it) && !it.readValue
    ensures Remaining(t, it) == FromEntry(Paths(t), it.hashNode.path, it.hashNode.bucket, it.index)
  {
    hide Htrie.Linked, Htrie.Filled, Before;
    OwnersStay(t);
    forall l | l in t.owner
      ensures t.owner[l].path == it.hashNode.path <==> t.owner[l] == it.hashNode
    {
      if t.owner[l].path == it.hashNode.path {
        t.Unique(t.owner[l], it.hashNode);
      }
    }
  }

  lemma WithoutShifts<T>(p: Key, b: Bucket<T>, i: nat, l: Key)
    requires i < |b|
    ensures InBucketFrom(p, Without(b, i), i, l) <==> InBucketFrom(p, b, i + 1, l)
  {
    if j :| i <= j < |b| - 1 && l == p + Without(b, i)[j].0 {
      assert Without(b, i)[j] == b[j + 1];
    }
    if j :| i + 1 <= j < |b| && l == p + b[j].0 {
      assert Without(b, i)[j - 1] == b[j];
    }
  }

  lemma WithoutShiftsAll<T>(paths: map<Key, Key>, p: Key, b: Bucket<T>, i: nat)
    requires i < |b|
    ensures FromEntry(paths, p, Without(b, i), i) == FromEntry(paths, p, b, i + 1)
  {
    hide Without, InBucketFrom, Before;
    forall l
      ensures InBucketFrom(p, Without(b, i), i, l) <==> InBucketFrom(p, b, i + 1, l)
    {
      WithoutShifts(p, b, i, l);
    }
  }

  /** The elements after one that is not the last of its bucket. */
  lemma AfterInner<T>(t: Htrie<T>, pos: Iterator<T>)
    requires t.Valid() && Standing(t, pos) && !pos.readValue && pos.filter == []
    requires pos.index + 1 < |pos.hashNode.bucket|
    ensures var n, k := pos.hashNode, ElementKey(t, pos);
      var rest := FromEntry(Paths(t), n.path, n.bucket, pos.index + 1);
      && k !in rest && rest == Remaining(t, pos) - {k}
  {
    hide Htrie.Linked, Htrie.Filled, Htrie.Compact, Remaining, Paths, FromEntry, Advanced;
    var later := pos.(index := pos.index + 1);
    NextInLeaf(t, pos);
    AheadStep(t, pos, later, pos.index + 1, null);
    RemainingFromEntry(t, later);
  }

  /** Elements that come after `k` do so as well when `k` is gone. */
  lemma FromEntryDrop<T>(paths: map<Key, Key>, k: Key, p: Key, b: Bucket<T>, i: nat)
    requires k !in FromEntry(paths, p, b, i)
    ensures FromEntry(paths - {k}, p, b, i) == FromEntry(paths, p, b, i)
  {
  }

  /** erase(pos), standing in a bucket, with another element after it there */
  method EraseInner<T>(t: Htrie<T>, pos: Iterator<T>) returns (next: Iterator<T>)
    requires t.Valid() && Standing(t, pos) && !pos.readValue && pos.filter == []
    requires pos.index + 1 < |pos.hashNode.bucket|
    modifies t`root, t`repr, t`nbElements, t`contents, t`owner, t.repr
    ensures t.Valid() && t.burstThreshold == old(t.burstThreshold) && t.repr <= old(t.repr)
    ensures forall m :: m in t.repr ==> |m.bucket| <= |old(m.bucket)|
    ensures t.contents == old(t.contents) - {old(ElementKey(t, pos))}
    ensures next.filter == [] && Standing(t, next)
    ensures Remaining(t, next) == old(Remaining(t, pos)) - {old(ElementKey(t, pos))}
  {
    hide Htrie.Linked, Htrie.Filled, Htrie.Compact, Remaining, Without, FromEntry, Paths;
    var n := pos.hashNode;
    ghost var b, paths, k := n.bucket, Paths(t), ElementKey(t, pos);
    AfterInner(t, pos);
    FromEntryDrop(paths, k, n.path, b, pos.index + 1);
    WithoutShiftsAll(paths - {k}, n.path, b, pos.index);
    RemoveInner(t, pos);
    next := Iterator(n.parent, n, pos.index, false, []);
    RemainingFromEntry(t, next);
  }

  /** erase(pos) */
  method Erase<T>(t: Htrie<T>, pos: Iterator<T>) returns (next: Iterator<T>)
    requires t.Valid() && Standing(t, pos) && pos.filter == []
    modifies t`root, t`repr, t`nbElements, t`contents, t`owner, t.repr
    ensures t.Valid() && t.burstThreshold == old(t.burstThreshold) && t.repr <= old(t.repr)
    ensures old(t.Invariant()) ==> t.Invariant()
    ensures forall m :: m in t.repr ==> |m.bucket| <= |old(m.bucket)|
    ensures t.contents == old(t.contents) - {old(ElementKey(t, pos))}
    ensures next.filter == [] && (IsEnd(next) || Standing(t, next))
    ensures Remaining(t, next) == old(Remaining(t, pos)) - {old(ElementKey(t, pos))}
  {
    hide Htrie.Linked, Htrie.Filled, Htrie.Compact, Ahead, Remaining, AtOrAfter;
    if pos.readValue {
      next := EraseValue(t, pos);
    } else if pos.index + 1 < |pos.hashNode.bucket| {
      next := EraseInner(t, pos);
    } else {
      next := EraseLast(t, pos);
    }
  }

  /** erase(pos), standing at the last element of a bucket */
  method EraseLast<T>(t: Htrie<T>, pos: Iterator<T>) returns (next: Iterator<T>)
    requires t.Valid() && Standing(t, pos) && !pos.readValue && pos.filter == []
    requires pos.index + 1 == |pos.hashNode.bucket|
    modifies t`root, t`repr, t`nbElements, t`contents, t`owner, t.repr
    ensures t.Valid() && t.burstThreshold == old(t.burstThreshold) && t.repr <= old(t.repr)
    ensures forall m :: m in t.repr ==> |m.bucket| <= |old(m.bucket)|
    ensures t.contents == old(t.contents) - {old(ElementKey(t, pos))}
    ensures next.filter == [] && (IsEnd(next) || Standing(t, next))
    ensures Remaining(t, next) == old(Remaining(t, pos)) - {old(ElementKey(t, pos))}
  {
    hide Htrie.Linked, Htrie.Filled, Htrie.Compact, Ahead, Remaining, Follows, From;
    ghost var r, rest, l;
    next, r, rest, l := StepOff(t, pos);
    RemoveBefore(t, pos, next, r, rest, l);
    FollowsRemaining(t, next, r, rest);
  }

  lemma NextApart<T>(t: Htrie<T>, n: Node<T>, r: Node?<T>)
    requires NextHolder(t, n.path, r)
    ensures r != null ==> r in t.repr && Holder(t, r) && r.path != n.path && r != n
  {
    BeforeIrreflexive(n.path);
  }

  /** iterator(hnode, it) and iterator(tnode) */
  function ToIterator<T>(p: Position<T>): Iterator<T>
    reads if p.AtEntry? then {p.node} else {}
  {
    match p
    case End => Iterator(null, null, 0, false, [])
    case AtValue(n) => Iterator(n, null, 0, true, [])
    case AtEntry(n, i) => Iterator(n.parent, n, i, false, [])
  }

  lemma PositionStands<T>(t: Htrie<T>, p: Position<T>, k: Key)
    requires t.Wf() && t.Holds(p, k)
    ensures Standing(t, ToIterator(p)) && ElementKey(t, ToIterator(p)) == k
  {
    assert Htrie.Known(p.node, t.contents, t.owner);
  }

  /** erase(key, key_size) */
  method EraseKey<T>(t: Htrie<T>, key: Key) returns (count: nat)
    requires t.Valid()
    modifies t`root, t`repr, t`nbElements, t`contents, t`owner, t.repr
    ensures t.Valid() && t.repr <= old(t.repr) && t.burstThreshold == old(t.burstThreshold)
    ensures forall m :: m in t.repr ==> |m.bucket| <= |old(m.bucket)|
    ensures old(t.Invariant()) ==> t.Invariant()
    ensures t.contents == old(t.contents) - {key}
    ensures count == if key in old(t.contents) then 1 else 0
  {
    hide Htrie.Linked, Htrie.Filled, Htrie.Compact, Htrie.LeavesWithin, Standing, ElementKey;
    var p := t.Find(key);
    if p == End {
      return 0;
    }
    PositionStands(t, p, key);
    var next := Erase(t, ToIterator(p));
    count := 1;
  }
}
