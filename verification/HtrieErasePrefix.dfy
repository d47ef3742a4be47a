/**
 erase_prefix() (inc/tsl/htrie_hash.h:1042-1097, 1319-1335, 1645-1662), with the two cases in which it
 does not leave the tree as it should.
 */
module HtrieErasePrefix {
  import opened HtrieNode
  import opened KeyOrder
  import opened Htrie
  import opened HtrieIterator
  import opened HtrieTraversal
  import opened HtrieErase
  import opened HtriePrefix

  // ---------------------------------------------------------------- size_descendants

  /** The keys a node holds itself. */
  ghost function Owned<T>(owner: map<Key, Node<T>>, n: Node<T>): set<Key> {
    set k | k in owner && owner[k] == n
  }

  /** The keys of the first pairs of a bucket. */
  ghost function BucketKeys<T>(path: Key, b: Bucket<T>, size: nat): set<Key>
    requires size <= |b|
  {
    set i | 0 <= i < size :: path + b[i].0
  }

  lemma {:induction false} BucketKeysSize<T>(path: Key, b: Bucket<T>, size: nat)
    requires DistinctKeys(b) && size <= |b|
    ensures |BucketKeys(path, b, size)| == size
  {
    if size > 0 {
      BucketKeysSize(path, b, size - 1);
      var k := path + b[size - 1].0;
      forall i | 0 <= i < size - 1
        ensures path + b[i].0 != k
      {
        assert (path + b[i].0)[|path|..] == b[i].0;
        assert k[|path|..] == b[size - 1].0;
      }
      assert BucketKeys(path, b, size) == BucketKeys(path, b, size - 1) + {k};
    }
  }

  lemma OwnedSize<T>(t: Htrie<T>, n: Node<T>)
    requires t.Wf() && n in t.repr && Holder(t, n)
    ensures |Owned(t.owner, n)| == if n.isTrie then 1 else |n.bucket|
  {
    assert Htrie.Known(n, t.contents, t.owner);
    if n.isTrie {
      forall k | k in t.owner && t.owner[k] == n
        ensures k == n.path
      {
        OwnerHolds(t, k);
      }
      assert Owned(t.owner, n) == {n.path};
    } else {
      BucketKeysSize(n.path, n.bucket, |n.bucket|);
      forall k | k in t.owner && t.owner[k] == n
        ensures k in BucketKeys(n.path, n.bucket, |n.bucket|)
      {
        OwnerHolds(t, k);
      }
      assert Owned(t.owner, n) == BucketKeys(n.path, n.bucket, |n.bucket|);
    }
  }

  /** From the first element of a holder to that of the next. */
  lemma SkipNode<T>(t: Htrie<T>, it: Iterator<T>, f: Node<T>, it': Iterator<T>, r: Node?<T>)
    requires t.Valid() && Opens(t, it, f) && Opens(t, it', r) && NextHolder(t, f.path, r)
    ensures Remaining(t, it) == Remaining(t, it') + Owned(t.owner, f)
    ensures Remaining(t, it') !! Owned(t.owner, f)
  {
    hide Htrie.Linked, Htrie.Filled, Htrie.Compact, Ahead, NextHolder, Right;
    KeysAgree(t);
    RightIrreflexive(f.path);
    forall k | k in t.owner
      ensures Ahead(t, it, k) <==> Ahead(t, it', k) || t.owner[k] == f
      ensures Ahead(t, it', k) ==> t.owner[k] != f
    {
      AheadOfOpen(t, it, f, k);
      AheadOfOpen(t, it', r, k);
      NextHolderSplits(t, f, r, k);
      OwnerHolds(t, k);
      if t.owner[k].path == f.path {
        t.Unique(t.owner[k], f);
      }
    }
  }

  /** A holder before the end of a range has none of its keys beyond that end. */
  lemma NoneBeyond<T>(t: Htrie<T>, it: Iterator<T>, f: Node<T>, end: Iterator<T>, e: Node?<T>)
    requires t.Valid() && Opens(t, it, f) && Opens(t, end, e) && !Same(it, end)
    requires Remaining(t, end) <= Remaining(t, it)
    ensures Owned(t.owner, f) !! Remaining(t, end)
  {
    hide Htrie.Linked, Htrie.Filled, Htrie.Compact, Ahead, Right;
    NotYetThere(t, it, end, e);
    KeysAgree(t);
    StandingFacts(t, it);
    StandingAfter(t, f, it);
    AheadOfOpen(t, end, e, ElementKey(t, it));
    forall k | k in Owned(t.owner, f)
      ensures !Ahead(t, end, k)
    {
      AheadOfOpen(t, end, e, k);
    }
  }

  /** The loop body of size_descendants(): on to the next holder. */
  method NextNode<T>(t: Htrie<T>, it: Iterator<T>, ghost f: Node<T>) returns (it': Iterator<T>, ghost r: Node?<T>, size: nat)
    requires t.Valid() && Opens(t, it, f) && it.filter == []
    ensures Opens(t, it', r) && NextHolder(t, f.path, r) && it'.filter == []
    ensures size == |Owned(t.owner, f)| && size > 0
  {
    hide Htrie.Linked, Htrie.Filled, Htrie.Compact, FirstRightOf, NextHolder;
    StandingAfter(t, f, it);
    OwnedSize(t, f);
    if it.readValue {
      ghost var j;
      size := 1;
      it', j, r := Increment(t, it);
    } else {
      size := |it.hashNode.bucket|;
      it', r := LeaveLeaf(t, it);
      LeafNext(t, it.hashNode, r);
    }
    HolderAfter(t, f, r);
    if r != null {
      StandingAfter(t, r, it');
    }
  }

  lemma HolderAfter<T>(t: Htrie<T>, f: Node<T>, r: Node?<T>)
    requires NextHolder(t, f.path, r)
    ensures r != null ==> r in t.repr && Holder(t, r)
  {
  }

  lemma StartOpens<T>(t: Htrie<T>, p: Key, first: Iterator<T>, last: Iterator<T>, f: Node<T>, e: Node?<T>)
    requires t.Valid() && RangeAtNode(t, p, first, last, f, e)
    ensures Opens(t, first, f) && first.filter == []
  {
    StandingAfter(t, f, first);
  }

  lemma StillOpen<T>(t: Htrie<T>, first: Iterator<T>, node: Node?<T>, last: Iterator<T>, e: Node?<T>)
    requires t.Valid() && Opens(t, first, node) && Opens(t, last, e) && !Same(first, last)
    requires Remaining(t, last) <= Remaining(t, first)
    ensures node != null
  {
    NotYetThere(t, first, last, e);
  }

  lemma SameOpens<T>(t: Htrie<T>, first: Iterator<T>, node: Node?<T>, last: Iterator<T>, e: Node?<T>)
    requires Opens(t, first, node) && Opens(t, last, e) && Same(first, last)
    ensures Remaining(t, first) == Remaining(t, last)
  {
    SameRemaining(t, first, last);
  }

  lemma SetDrop(todo: set<Key>, owned: set<Key>)
    requires owned <= todo
    ensures |todo - owned| + |owned| == |todo|
    ensures owned != {} ==> todo - owned < todo
  {
    assert (todo - owned) + owned == todo;
    if k :| k in owned {
      assert k in todo && k !in todo - owned;
    }
  }

  /** size_descendants() */
  method SizeDescendants<T>(t: Htrie<T>, start: Node<T>) returns (count: nat)
    requires t.Valid() && start in t.repr
    ensures count == |WithPrefix(t.contents, start.path)|
  {
    hide Htrie.Linked, Htrie.Filled, Htrie.Compact, Remaining, NextHolder, WithPrefix, Owned, Standing, StartsAt;
    ghost var f, e, r;
    var first, last;
    first, last, f, e := RangeOfNode(t, start);
    NodeRangeStart(t, start, first, last, f, e);
    ghost var node: Node?<T> := f;
    StartOpens(t, start.path, first, last, f, e);
    count := 0;
    ghost var todo := WithPrefix(t.contents, start.path);
    while !Same(first, last)
      invariant Opens(t, first, node) && Opens(t, last, e) && first.filter == []
      invariant Remaining(t, last) <= Remaining(t, first) && todo == Remaining(t, first) - Remaining(t, last)
      invariant count + |todo| == |WithPrefix(t.contents, start.path)|
      decreases todo
    {
      StillOpen(t, first, node, last, e);
      var first', size;
      first', r, size := NextNode(t, first, node);
      SkipNode(t, first, node, first', r);
      NoneBeyond(t, first, node, last, e);
      ghost var owned := Owned(t.owner, node);
      SetDrop(todo, owned);
      first, node, count, todo := first', r, count + size, todo - owned;
    }
    SameOpens(t, first, node, last, e);
  }

  // ---------------------------------------------------------------- a prefix that ends at a trie node

  ghost function Below<T>(repr: set<Node<T>>, p: Key): set<Node<T>>
    reads repr
  {
    set m | m in repr && p <= m.path
  }

  /** A node is below `n` when it is `n`, or when its parent is. */
  lemma BelowClosed<T>(t: Htrie<T>, n: Node<T>, m: Node<T>)
    requires t.Wf() && n in t.repr && m in t.repr && m.parent != null
    ensures m in Below(t.repr, n.path) <==> m == n || m.parent in Below(t.repr, n.path)
  {
    var q := m.parent;
    assert m.path == q.path + [m.childOf];
    if n.path <= m.path && m != n {
      if |m.path| == |n.path| {
        t.Unique(m, n);
      }
      assert q.path == m.path[..|m.path| - 1];
      assert n.path <= q.path;
    }
  }

  /** The maps without the keys that are kept at or below `n`. */
  lemma FilledCut<T>(t: Htrie<T>, n: Node<T>)
    requires t.Wf() && n in t.repr
    ensures var w := WithPrefix(t.contents, n.path);
      Htrie.Filled(t.repr - Below(t.repr, n.path), t.contents - w, t.owner - w)
  {
    hide Htrie.Linked, Htrie.Known, Htrie.Stores;
    var w := WithPrefix(t.contents, n.path);
    forall k | k in t.owner
      ensures k in w <==> t.owner[k] in Below(t.repr, n.path)
    {
      PrefixAtNode(t, n, k);
    }
    forall m | m in t.repr - Below(t.repr, n.path)
      ensures Htrie.Known(m, t.contents - w, t.owner - w)
    {
      Htrie.KnownFrame(m, t.contents, t.owner, t.contents - w, t.owner - w);
    }
  }

  lemma CutSize<T>(contents: map<Key, T>, w: set<Key>)
    requires w <= contents.Keys
    ensures |contents - w| + |w| == |contents|
  {
    assert (contents - w).Keys == contents.Keys - w;
    assert (contents - w).Keys + w == contents.Keys;
  }

  /** What is cut off with `n` is `n` and all that hangs below it. */
  ghost predicate ClosedCut<T>(repr: set<Node<T>>, n: Node<T>, cut: set<Node<T>>)
    reads repr`parent
  {
    forall m {:trigger m.parent} :: m in repr && m.parent != null ==> (m in cut <==> m == n || m.parent in cut)
  }

  /** The elements with the keys `w` are counted no more. */
  method ForgetAll<T>(t: Htrie<T>, ghost w: set<Key>, erased: nat)
    requires t.nbElements == |t.contents| && w <= t.contents.Keys && erased == |w|
    modifies t`nbElements, t`contents, t`owner
    ensures t.contents == old(t.contents) - w && t.owner == old(t.owner) - w && t.nbElements == |t.contents|
  {
    CutSize(t.contents, w);
    t.contents, t.owner := t.contents - w, t.owner - w;
    t.nbElements := t.nbElements - erased;
  }

  /** parent->set_child(c, nullptr) */
  method Cut<T>(t: Htrie<T>, p: Node<T>, n: Node<T>, ghost cut: set<Node<T>>)
    requires Htrie.Linked(t.root, t.repr) && n in t.repr && n.parent == p && p in t.repr && p.isTrie && p.Slotted()
    requires n in cut && p !in cut && t.root !in cut
    requires ClosedCut(t.repr, n, cut)
    modifies t`repr, p`children
    ensures t.repr == old(t.repr) - cut && Htrie.Linked(t.root, t.repr)
    ensures p.children == old(p.children)[n.childOf := null]
  {
    p.ResetChild(n.childOf);
    t.repr := t.repr - cut;
  }

  method CutCompactly<T>(t: Htrie<T>, p: Node<T>, n: Node<T>, ghost cut: set<Node<T>>)
    requires Htrie.Linked(t.root, t.repr) && n in t.repr && n.parent == p && p in t.repr && p.isTrie && p.Slotted()
    requires n in cut && p !in cut && t.root !in cut
    requires ClosedCut(t.repr, n, cut)
    requires Htrie.Compact(t.repr, null) && Htrie.Filled(t.repr - cut, t.contents, t.owner)
    modifies t`repr, p`children
    ensures t.repr == old(t.repr) - cut && Htrie.Linked(t.root, t.repr) && Htrie.Compact(t.repr, p)
    ensures Htrie.Filled(t.repr, t.contents, t.owner)
    ensures p.children == old(p.children)[n.childOf := null]
  {
    hide Htrie.Linked, Htrie.Filled, ClosedCut;
    Cut(t, p, n, cut);
  }

  /** The parent of `n` has a value and no other child: what the code overlooks at line 1074. */
  ghost predicate SoleChildOfValue<T>(n: Node<T>)
    reads n, n.parent
  {
    && n.parent != null && n.parent.value.Some?
    && forall c: Byte :: c < |n.parent.children| && c != n.childOf ==> n.parent.children[c] == null
  }

  /** The maps without the value of `p`. */
  lemma FilledWithout<T>(repr: set<Node<T>>, contents: map<Key, T>, owner: map<Key, Node<T>>, p: Node<T>)
    requires Htrie.Filled(repr, contents, owner) && p in repr && p.isTrie
    ensures p.value == None ==> Htrie.Filled(repr - {p}, contents, owner)
    ensures p.value.Some? ==> Htrie.Filled(repr - {p}, contents - {p.path}, owner - {p.path})
    ensures p.value.Some? ==> p.path in contents
  {
    assert Htrie.Known(p, contents, owner);
    hide Htrie.Known;
    if p.value == None {
      FilledDrop(repr, repr - {p}, contents, owner);
    } else {
      forall m | m in repr - {p}
        ensures Htrie.Known(m, contents - {p.path}, owner - {p.path})
      {
        Htrie.KnownFrame(m, contents, owner, contents - {p.path}, owner - {p.path});
      }
    }
  }

  lemma CutFacts<T>(t: Htrie<T>, n: Node<T>)
    requires t.Wf() && n in t.repr && n.parent != null
    ensures var p, cut := n.parent, Below(t.repr, n.path);
      && p in t.repr && p.isTrie && p.Slotted() && n in cut && p !in cut && t.root !in cut
      && ClosedCut(t.repr, n, cut)
  {
    hide Htrie.Filled;
    assert n.path == n.parent.path + [n.childOf];
    forall m {:trigger m.parent} | m in t.repr && m.parent != null
      ensures m in Below(t.repr, n.path) <==> m == n || m.parent in Below(t.repr, n.path)
    {
      BelowClosed(t, n, m);
    }
  }

  lemma Trim<T>(contents: map<Key, T>, k: Key)
    requires k in contents
    ensures |contents - {k}| + 1 == |contents|
  {
    CutSize(contents, {k});
  }

  /** erase_prefix(), lines 1067-1071. */
  method DetachSubtree<T>(t: Htrie<T>, n: Node<T>) returns (erased: nat)
    requires t.Valid() && n in t.repr && n.isTrie && n.parent != null
    modifies t`repr, t`nbElements, t`contents, t`owner, n.parent`children
    ensures erased == |WithPrefix(old(t.contents), n.path)|
    ensures t.contents == old(t.contents) - WithPrefix(old(t.contents), n.path)
    ensures Htrie.Linked(t.root, t.repr) && Htrie.Filled(t.repr, t.contents, t.owner) && t.nbElements == |t.contents|
    ensures Htrie.Compact(t.repr, n.parent) && t.repr <= old(t.repr)
    ensures n.parent in t.repr && n.parent.isTrie && n.parent.Slotted() && |old(n.parent.children)| == ALPHABET_SIZE
    ensures n.parent.children == old(n.parent.children)[n.childOf := null]
  {
    hide Htrie.Linked, Htrie.Filled, Htrie.Compact, WithPrefix, Below, ClosedCut;
    erased := SizeDescendants(t, n);
    CutFacts(t, n);
    FilledCut(t, n);
    ghost var cut, w := Below(t.repr, n.path), WithPrefix(t.contents, n.path);
    WithPrefixIn(t.contents, n.path);
    ForgetAll(t, w, erased);
    CutCompactly(t, n.parent, n, cut);
  }

  /** erase_prefix(), lines 1074-1076: the test that looks at the children of `p` only. */
  method TidyParent<T>(t: Htrie<T>, p: Node<T>)
    requires Htrie.Linked(t.root, t.repr) && Htrie.Filled(t.repr, t.contents, t.owner) && t.nbElements == |t.contents|
    requires Htrie.Compact(t.repr, p) && p in t.repr && p.isTrie && p.Slotted()
    modifies t`root, t`repr, t`contents, t`owner, t.repr`children, p`parent, p`childOf, p`path
    ensures var lost := old(p.value.Some? && Childless(p));
      && t.contents == (if lost then old(t.contents) - {old(p.path)} else old(t.contents))
      && t.nbElements == |t.contents| + if lost then 1 else 0
    ensures Htrie.Linked(t.root, t.repr) && Htrie.Filled(t.repr, t.contents, t.owner) && Htrie.Compact(t.repr, null)
    ensures t.repr <= old(t.repr)
  {
    hide Htrie.Linked, Htrie.Filled, Htrie.Compact;
    var none := p.Empty();
    if none {
      FilledWithout(t.repr, t.contents, t.owner, p);
      if p.value.Some? {
        Trim(t.contents, p.path);
        t.contents, t.owner := t.contents - {p.path}, t.owner - {p.path};
      }
      ClearEmptyNodes(t, p);
    } else {
      CompactAnyway(t.repr, p);
    }
  }

  /** erase_prefix(), lines 1063-1079: the subtree at `n` goes, and its parent if that has no children left. */
  method EraseSubtree<T>(t: Htrie<T>, n: Node<T>) returns (erased: nat)
    requires t.Valid() && n in t.repr && n.isTrie && n.parent != null
    modifies t`root, t`repr, t`nbElements, t`contents, t`owner, t.repr
    ensures erased == |WithPrefix(old(t.contents), old(n.path))|
    ensures var rest := old(t.contents) - WithPrefix(old(t.contents), old(n.path));
      t.contents == if old(SoleChildOfValue(n)) then rest - {old(n.parent.path)} else rest
    ensures Htrie.Linked(t.root, t.repr) && Htrie.Filled(t.repr, t.contents, t.owner) && Htrie.Compact(t.repr, null)
    ensures t.nbElements == |t.contents| + if old(SoleChildOfValue(n)) then 1 else 0
    ensures t.repr <= old(t.repr) && forall m :: m in t.repr ==> m.bucket == old(m.bucket)
  {
    hide Htrie.Linked, Htrie.Filled, Htrie.Compact, WithPrefix;
    InTrie(t, n);
    var p := n.parent;
    erased := DetachSubtree(t, n);
    SoleChildAfter(n, p, old(p.children));
    TidyParent(t, p);
  }

  lemma SoleChildAfter<T>(n: Node<T>, p: Node<T>, children: seq<Node?<T>>)
    requires |children| == ALPHABET_SIZE && p.children == children[n.childOf := null]
    ensures Childless(p) <==> forall c: Byte :: c < |children| && c != n.childOf ==> children[c] == null
  {
    if Childless(p) {
      forall c: Byte | c < |children| && c != n.childOf
        ensures children[c] == null
      {
        assert p.children[c] == null;
      }
    }
  }

  lemma WithPrefixIn<T>(contents: map<Key, T>, prefix: Key)
    ensures WithPrefix(contents, prefix) <= contents.Keys
  {
  }

  // ---------------------------------------------------------------- a prefix that ends at a leaf

  /** The keys with a prefix that leads to a leaf are those the leaf holds. */
  lemma LeafOwns<T>(t: Htrie<T>, n: Node<T>)
    requires t.Valid() && n in t.repr && !n.isTrie
    ensures WithPrefix(t.contents, n.path) == Owned(t.owner, n)
    ensures |WithPrefix(t.contents, n.path)| == |n.bucket|
    ensures n.Slotted() && n.value == None && Childless(n)
    ensures var w := WithPrefix(t.contents, n.path);
      Htrie.Filled(t.repr - {n}, t.contents - w, t.owner - w) && |t.contents - w| + |w| == |t.contents|
  {
    FilledCut(t, n);
    CutSize(t.contents, WithPrefix(t.contents, n.path));
    assert Htrie.Known(n, t.contents, t.owner) && n.Slotted();
    forall m | m in t.repr
      ensures n.path <= m.path <==> m == n
    {
      if n.path <= m.path && m != n {
        WayDown(t, n, m);
      }
    }
    assert Below(t.repr, n.path) == {n};
    forall k | k in t.owner
      ensures n.path <= k <==> t.owner[k] == n
    {
      PrefixAtNode(t, n, k);
      OwnerHolds(t, k);
    }
    OwnedSize(t, n);
  }

  /** The maps without the keys of a leaf. */
  lemma MapsWithout<T>(t: Htrie<T>, n: Node<T>) returns (contents: map<Key, T>, owner: map<Key, Node<T>>)
    requires t.Valid() && n in t.repr && !n.isTrie
    ensures contents == t.contents - WithPrefix(t.contents, n.path)
    ensures |WithPrefix(t.contents, n.path)| == |n.bucket| && |contents| + |n.bucket| == |t.contents| == t.nbElements
    ensures Htrie.Filled(t.repr - {n}, contents, owner) && Htrie.Compact(t.repr, n) && Childless(n)
    ensures Htrie.Linked(t.root, t.repr)
  {
    hide Htrie.Linked, Htrie.Filled, Htrie.Compact, WithPrefix, Owned, Childless;
    LeafOwns(t, n);
    CompactBut(t.repr, n);
    var w := WithPrefix(t.contents, n.path);
    contents, owner := t.contents - w, t.owner - w;
  }

  /** array_hash().clear() on one leaf. */
  method ClearBucket<T>(t: Htrie<T>, n: Node<T>, ghost contents: map<Key, T>, ghost owner: map<Key, Node<T>>)
    requires Htrie.Linked(t.root, t.repr) && Htrie.Filled(t.repr - {n}, contents, owner)
    requires Htrie.Compact(t.repr, n) && Childless(n)
    modifies n`bucket
    ensures n.bucket == []
    ensures Htrie.Linked(t.root, t.repr) && Htrie.Filled(t.repr - {n}, contents, owner)
    ensures Htrie.Compact(t.repr, n) && Childless(n)
  {
    hide Htrie.Linked, Htrie.Filled;
    n.bucket := [];
  }

  method SetMaps<T>(t: Htrie<T>, erased: nat, ghost contents: map<Key, T>, ghost owner: map<Key, Node<T>>, n: Node<T>)
    requires Htrie.Linked(t.root, t.repr) && Htrie.Filled(t.repr - {n}, contents, owner)
    requires Htrie.Compact(t.repr, n) && Childless(n) && erased <= t.nbElements
    modifies t`nbElements, t`contents, t`owner
    ensures t.contents == contents && t.owner == owner && t.nbElements == old(t.nbElements) - erased
    ensures Htrie.Linked(t.root, t.repr) && Htrie.Filled(t.repr - {n}, t.contents, t.owner)
    ensures Htrie.Compact(t.repr, n) && Childless(n)
  {
    hide Htrie.Linked, Htrie.Filled, Htrie.Compact, Childless;
    t.contents, t.owner, t.nbElements := contents, owner, t.nbElements - erased;
  }

  /** erase_prefix(), lines 1087-1095: the whole leaf goes. */
  method EraseLeaf<T>(t: Htrie<T>, n: Node<T>) returns (erased: nat)
    requires t.Valid() && n in t.repr && !n.isTrie
    modifies t`root, t`repr, t`nbElements, t`contents, t`owner, t.repr
    ensures erased == |WithPrefix(old(t.contents), old(n.path))|
    ensures t.contents == old(t.contents) - WithPrefix(old(t.contents), old(n.path))
    ensures t.Valid() && t.repr <= old(t.repr) && forall m :: m in t.repr ==> m.bucket == old(m.bucket)
  {
    hide Htrie.Linked, Htrie.Filled, Htrie.Compact, WithPrefix, Childless;
    ghost var contents, owner := MapsWithout(t, n);
    erased := |n.bucket|;
    ClearBucket(t, n, contents, owner);
    SetMaps(t, erased, contents, owner, n);
    ClearEmptyNodes(t, n);
  }

  // ---------------------------------------------------------------- a prefix that runs into a leaf

  /** All suffixes of the leaf start with `rest`. */
  ghost predicate AllMatch<T>(b: Bucket<T>, rest: Key) {
    forall i :: 0 <= i < |b| ==> rest <= b[i].0
  }

  /** What the loop has done so far: `gone` are the keys it removed. */
  ghost predicate Weeded<T>(t: Htrie<T>, n: Node<T>, rest: Key, i: nat, was: map<Key, T>, gone: set<Key>)
    reads t, n
  {
    && i <= |n.bucket| && (forall j :: 0 <= j < i ==> !(rest <= n.bucket[j].0))
    && gone <= WithPrefix(was, n.path + rest)
    && t.contents == was - gone
  }

  /** At the end of the loop, all keys with the prefix are gone. */
  lemma WeededAll<T>(t: Htrie<T>, n: Node<T>, rest: Key, was: map<Key, T>, gone: set<Key>)
    requires t.Wf() && n in t.repr && !n.isTrie && Weeded(t, n, rest, |n.bucket|, was, gone)
    ensures gone == WithPrefix(was, n.path + rest) && t.contents == was - WithPrefix(was, n.path + rest)
  {
    forall k | k in was && n.path + rest <= k
      ensures k in gone
    {
      if k in t.contents {
        PrefixInLeaf(t, n, rest, k);
      }
    }
  }

  /** erase_prefix_hash_node(), one erasing round of the loop */
  method WeedOne<T>(t: Htrie<T>, n: Node<T>, i: nat, ghost rest: Key, ghost was: map<Key, T>, ghost gone: set<Key>)
    returns (ghost gone': set<Key>)
    requires Htrie.Linked(t.root, t.repr) && Htrie.Filled(t.repr, t.contents, t.owner) && t.nbElements == |t.contents|
    requires Htrie.Compact(t.repr, n) && n in t.repr && !n.isTrie && i < |n.bucket|
    requires Weeded(t, n, rest, i, was, gone) && rest <= n.bucket[i].0
    modifies t`nbElements, t`contents, t`owner, n`bucket
    ensures Htrie.Linked(t.root, t.repr) && Htrie.Filled(t.repr, t.contents, t.owner) && t.nbElements == |t.contents|
    ensures Htrie.Compact(t.repr, n) && n.bucket == Without(old(n.bucket), i)
    ensures Weeded(t, n, rest, i, was, gone') && |gone'| == |gone| + 1
  {
    hide Htrie.Linked, Htrie.Filled, Htrie.Compact, Without, Weeded;
    ghost var k := n.path + n.bucket[i].0;
    gone' := gone + {k};
    WeedingOne(t, n, rest, i, was, gone, k);
    DropEntry(t, n, i);
    Forget(t, k);
    WeededOne(t, n, rest, i, was, gone');
  }

  /** The next key has the prefix, and was not erased before. */
  lemma WeedingOne<T>(t: Htrie<T>, n: Node<T>, rest: Key, i: nat, was: map<Key, T>, gone: set<Key>, k: Key)
    requires Htrie.Filled(t.repr, t.contents, t.owner) && n in t.repr && i < |n.bucket|
    requires Weeded(t, n, rest, i, was, gone) && k == n.path + n.bucket[i].0 && rest <= n.bucket[i].0
    ensures k in t.contents && k !in gone && was - gone - {k} == was - (gone + {k})
    ensures gone + {k} <= WithPrefix(was, n.path + rest)
    ensures t.contents == was - gone
    ensures var b := Without(n.bucket, i); i <= |b| && forall j :: 0 <= j < i ==> !(rest <= b[j].0)
  {
    assert Htrie.Known(n, t.contents, t.owner);
  }

  lemma WeededOne<T>(t: Htrie<T>, n: Node<T>, rest: Key, i: nat, was: map<Key, T>, gone: set<Key>)
    requires i <= |n.bucket| && (forall j :: 0 <= j < i ==> !(rest <= n.bucket[j].0))
    requires gone <= WithPrefix(was, n.path + rest) && t.contents == was - gone
    ensures Weeded(t, n, rest, i, was, gone)
  {
  }

  lemma WeededNone<T>(t: Htrie<T>, n: Node<T>, rest: Key)
    ensures Weeded(t, n, rest, 0, t.contents, {})
  {
    assert t.contents - {} == t.contents;
  }

  lemma WeededSkip<T>(t: Htrie<T>, n: Node<T>, rest: Key, i: nat, was: map<Key, T>, gone: set<Key>)
    requires Weeded(t, n, rest, i, was, gone) && i < |n.bucket| && !(rest <= n.bucket[i].0)
    ensures Weeded(t, n, rest, i + 1, was, gone)
  {
  }

  lemma MatchStep<T>(b: Bucket<T>, rest: Key, i: nat)
    requires i < |b|
    ensures rest <= b[i].0 && i == 0 ==> (AllMatch(b, rest) <==> AllMatch(Without(b, i), rest))
    ensures !(rest <= b[i].0) ==> !AllMatch(b, rest)
  {
    if i == 0 {
      forall j | 0 < j < |b|
        ensures b[j] == Without(b, i)[j - 1]
      {
      }
    }
  }

  /** The tree is compact again exactly when the leaf kept something. */
  lemma LeafLeft<T>(t: Htrie<T>, n: Node<T>)
    requires t.Wf() && n in t.repr && !n.isTrie && Htrie.Compact(t.repr, n)
    ensures Htrie.Compact(t.repr, null) <==> n.bucket != []
  {
    assert Htrie.Known(n, t.contents, t.owner) && n.Slotted();
  }

  /** erase_prefix_hash_node() */
  method ErasePrefixHashNode<T>(t: Htrie<T>, n: Node<T>, rest: Key) returns (erased: nat)
    requires t.Valid() && n in t.repr && !n.isTrie
    modifies t`nbElements, t`contents, t`owner, n`bucket
    ensures erased == |WithPrefix(old(t.contents), n.path + rest)|
    ensures t.contents == old(t.contents) - WithPrefix(old(t.contents), n.path + rest)
    ensures t.Wf() && Htrie.Compact(t.repr, n)
    ensures Htrie.Compact(t.repr, null) <==> !old(AllMatch(n.bucket, rest))
    ensures |n.bucket| <= |old(n.bucket)|
  {
    hide Htrie.Linked, Htrie.Filled, Htrie.Compact, Weeded, Without;
    CompactBut(t.repr, n);
    erased := 0;
    ghost var was, gone := t.contents, {};
    ghost var all := AllMatch(n.bucket, rest);
    WeededNone(t, n, rest);
    var i := 0;
    while i != |n.bucket|
      invariant Htrie.Linked(t.root, t.repr) && Htrie.Filled(t.repr, t.contents, t.owner)
      invariant t.nbElements == |t.contents| && Htrie.Compact(t.repr, n)
      invariant i <= |n.bucket| && Weeded(t, n, rest, i, was, gone) && erased == |gone|
      invariant all <==> i == 0 && AllMatch(n.bucket, rest)
      invariant |n.bucket| <= |old(n.bucket)|
      decreases |n.bucket| - i
    {
      MatchStep(n.bucket, rest, i);
      if rest <= n.bucket[i].0 {
        gone := WeedOne(t, n, i, rest, was, gone);
        erased := erased + 1;
      } else {
        WeededSkip(t, n, rest, i, was, gone);
        i := i + 1;
      }
    }
    WeededAll(t, n, rest, was, gone);
    LeafLeft(t, n);
  }

  // ---------------------------------------------------------------- erase_prefix

  /** The prefix ends at a trie node whose parent has a value and no other child. */
  ghost predicate LosesParent<T>(t: Htrie<T>, prefix: Key)
    reads t, t.repr
  {
    exists n :: n in t.repr && n.isTrie && n.path == prefix && n.parent in t.repr && SoleChildOfValue(n)
  }

  /** The prefix runs into a leaf all of whose keys have it. */
  ghost predicate EmptiesLeaf<T>(t: Htrie<T>, prefix: Key)
    reads t, t.repr
  {
    exists n :: n in t.repr && !n.isTrie && n.path < prefix && AllMatch(n.bucket, prefix[|n.path|..])
  }

  lemma LosesParentAt<T>(t: Htrie<T>, n: Node<T>)
    requires t.Wf() && n in t.repr
    ensures LosesParent(t, n.path) <==> n.isTrie && SoleChildOfValue(n)
    ensures SoleChildOfValue(n) ==>
      n.path != [] && n.parent.path == n.path[..|n.path| - 1] && n.parent.path in t.contents
  {
    if LosesParent(t, n.path) {
      var m :| m in t.repr && m.isTrie && m.path == n.path && m.parent in t.repr && SoleChildOfValue(m);
      t.Unique(n, m);
    }
    if SoleChildOfValue(n) {
      assert n.path == n.parent.path + [n.childOf];
      assert Htrie.Known(n.parent, t.contents, t.owner);
    }
  }

  lemma EmptiesLeafAt<T>(t: Htrie<T>, n: Node<T>, prefix: Key)
    requires t.Wf() && n in t.repr && n.path <= prefix
    requires n.isTrie ==> n.path == prefix || (n.Slotted() && n.children[prefix[|n.path|]] == null)
    ensures EmptiesLeaf(t, prefix) <==> !n.isTrie && n.path != prefix && AllMatch(n.bucket, prefix[|n.path|..])
    ensures n.path != prefix ==> !LosesParent(t, prefix)
  {
    if EmptiesLeaf(t, prefix) {
      var m :| m in t.repr && !m.isTrie && m.path < prefix && AllMatch(m.bucket, prefix[|m.path|..]);
      SamePrefix(t, n, m, prefix);
    }
    if LosesParent(t, prefix) {
      var m :| m in t.repr && m.isTrie && m.path == prefix && m.parent in t.repr && SoleChildOfValue(m);
      SamePrefix(t, m, n, prefix);
    }
  }

  /** The walk along `prefix` stops at `n`; no leaf and no node at `prefix` is elsewhere on that way. */
  lemma SamePrefix<T>(t: Htrie<T>, n: Node<T>, m: Node<T>, prefix: Key)
    requires t.Wf() && n in t.repr && m in t.repr && n.path <= prefix && m.path <= prefix
    ensures n.path <= m.path || m.path <= n.path
    ensures n.path <= m.path && n != m ==> n.isTrie && n.Slotted() && |n.path| < |prefix| && n.children[prefix[|n.path|]] != null
    ensures m.path <= n.path && n != m ==> m.isTrie && m.Slotted() && |m.path| < |prefix| && m.children[prefix[|m.path|]] != null
  {
    if |n.path| <= |m.path| {
      assert n.path == prefix[..|n.path|] == prefix[..|m.path|][..|n.path|];
    } else {
      assert m.path == prefix[..|m.path|] == prefix[..|n.path|][..|m.path|];
    }
    if n != m {
      if n.path <= m.path {
        WayDown(t, n, m);
      }
      if m.path <= n.path {
        WayDown(t, m, n);
      }
    }
  }

  /** erase_prefix() of all there is. */
  method EraseAll<T>(t: Htrie<T>) returns (erased: nat)
    requires t.Valid()
    modifies t`root, t`repr, t`nbElements, t`contents, t`owner
    ensures erased == |old(t.contents)| && t.contents == map[] && t.Valid() && t.repr == {}
  {
    hide Htrie.Linked, Htrie.Filled, Htrie.Compact;
    erased := t.nbElements;
    t.root, t.nbElements := null, 0;
    t.repr, t.contents, t.owner := {}, map[], map[];
    NothingHeld<T>();
  }

  lemma NothingHeld<T>()
    ensures Htrie<T>.Linked(null, {}) && Htrie<T>.Filled({}, map[], map[]) && Htrie<T>.Compact({}, null)
  {
  }

  lemma EmptyPrefix<T>(contents: map<Key, T>)
    ensures WithPrefix(contents, []) == contents.Keys
    ensures contents - contents.Keys == map[] && |contents.Keys| == |contents|
  {
  }

  /** What erase_prefix() leaves behind, by the two conditions above, taken before the call. */
  ghost predicate PrefixErased<T>(t: Htrie<T>, was: map<Key, T>, prefix: Key, losesParent: bool, emptiesLeaf: bool)
    reads t, t.repr
  {
    && Htrie.Linked(t.root, t.repr) && Htrie.Filled(t.repr, t.contents, t.owner)
    && (Htrie.Compact(t.repr, null) <==> !emptiesLeaf)
    && var rest := was - WithPrefix(was, prefix);
    && (!losesParent ==> t.contents == rest && t.nbElements == |t.contents|)
    && (losesParent ==>
          && prefix != [] && prefix[..|prefix| - 1] in rest
          && t.contents == rest - {prefix[..|prefix| - 1]} && t.nbElements == |t.contents| + 1)
  }

  /** erase_prefix(), with the prefix ending at a node */
  method ErasePrefixAtNode<T>(t: Htrie<T>, n: Node<T>) returns (erased: nat)
    requires t.Valid() && n in t.repr
    modifies t`root, t`repr, t`nbElements, t`contents, t`owner, t.repr
    ensures erased == |WithPrefix(old(t.contents), old(n.path))|
    ensures PrefixErased(t, old(t.contents), old(n.path), old(LosesParent(t, n.path)), old(EmptiesLeaf(t, n.path)))
    ensures t.repr <= old(t.repr) && forall m :: m in t.repr ==> m.bucket == old(m.bucket)
  {
    hide Htrie.Linked, Htrie.Filled, Htrie.Compact, WithPrefix, LosesParent, EmptiesLeaf, SoleChildOfValue;
    LosesParentAt(t, n);
    EmptiesLeafAt(t, n, n.path);
    if n.isTrie {
      if n.parent != null {
        ParentOfSole(t, n);
        erased := EraseSubtree(t, n);
      } else {
        EmptyPrefix(t.contents);
        RootPath(t, n);
        erased := EraseAll(t);
      }
    } else {
      erased := EraseLeaf(t, n);
    }
  }

  lemma RootPath<T>(t: Htrie<T>, n: Node<T>)
    requires t.Wf() && n in t.repr && n.parent == null
    ensures n.path == [] && !SoleChildOfValue(n)
  {
  }

  /** The value that is lost does not have the prefix. */
  lemma ParentOfSole<T>(t: Htrie<T>, n: Node<T>)
    requires t.Wf() && n in t.repr && n.parent != null
    ensures SoleChildOfValue(n) ==> n.parent.path in t.contents - WithPrefix(t.contents, n.path)
  {
    LosesParentAt(t, n);
  }

  /** erase_prefix() */
  method ErasePrefix<T>(t: Htrie<T>, prefix: Key) returns (erased: nat)
    requires t.Valid()
    modifies t`root, t`repr, t`nbElements, t`contents, t`owner, t.repr
    ensures erased == |WithPrefix(old(t.contents), prefix)|
    ensures PrefixErased(t, old(t.contents), prefix, old(LosesParent(t, prefix)), old(EmptiesLeaf(t, prefix)))
    ensures t.Valid() <==> !old(LosesParent(t, prefix)) && !old(EmptiesLeaf(t, prefix))
    ensures t.repr <= old(t.repr) && forall m :: m in t.repr ==> |m.bucket| <= |old(m.bucket)|
    ensures old(t.Invariant()) && t.Valid() ==> t.Invariant()
  {
    hide Htrie.Linked, Htrie.Filled, Htrie.Compact, WithPrefix, LosesParent, EmptiesLeaf, PrefixErased;
    if t.root == null {
      NoRoot(t);
      NothingAtAll(t, prefix);
      NothingDone(t, prefix);
      return 0;
    }
    RootIn(t);
    t.WfParts();
    var current, i := t.Walk(t.root, prefix);
    assert [] + prefix[..i] == prefix[..i];
    erased := ErasePrefixAt(t, current, prefix, i);
    ErasedValid(t, old(t.contents), prefix, old(LosesParent(t, prefix)), old(EmptiesLeaf(t, prefix)));
  }

  lemma ErasedValid<T>(t: Htrie<T>, was: map<Key, T>, prefix: Key, losesParent: bool, emptiesLeaf: bool)
    requires PrefixErased(t, was, prefix, losesParent, emptiesLeaf)
    ensures t.Valid() <==> !losesParent && !emptiesLeaf
  {
    hide Htrie.Linked, Htrie.Filled, Htrie.Compact, WithPrefix;
  }

  lemma NothingDone<T>(t: Htrie<T>, prefix: Key)
    requires t.Valid() && WithPrefix(t.contents, prefix) == {} && !LosesParent(t, prefix) && !EmptiesLeaf(t, prefix)
    ensures PrefixErased(t, t.contents, prefix, LosesParent(t, prefix), EmptiesLeaf(t, prefix))
  {
    hide Htrie.Linked, Htrie.Filled, Htrie.Compact, WithPrefix, LosesParent, EmptiesLeaf;
    NothingGone(t, prefix);
  }

  /** erase_prefix(), from where the way along the prefix ends */
  method ErasePrefixAt<T>(t: Htrie<T>, current: Node<T>, prefix: Key, i: nat) returns (erased: nat)
    requires t.Valid() && current in t.repr && current.Slotted() && i <= |prefix| && current.path == prefix[..i]
    requires i == |prefix| || !current.isTrie || current.children[prefix[i]] == null
    modifies t`root, t`repr, t`nbElements, t`contents, t`owner, t.repr
    ensures erased == |WithPrefix(old(t.contents), prefix)|
    ensures PrefixErased(t, old(t.contents), prefix, old(LosesParent(t, prefix)), old(EmptiesLeaf(t, prefix)))
    ensures t.repr <= old(t.repr) && forall m :: m in t.repr ==> |m.bucket| <= |old(m.bucket)|
  {
    hide Htrie.Linked, Htrie.Filled, Htrie.Compact, WithPrefix, LosesParent, EmptiesLeaf, PrefixErased;
    EmptiesLeafAt(t, current, prefix);
    if i == |prefix| {
      assert prefix[..i] == prefix;
      erased := ErasePrefixAtNode(t, current);
    } else if current.isTrie {
      PrefixNowhere(t, current, prefix, i);
      erased := 0;
      NothingDone(t, prefix);
    } else {
      assert current.path + prefix[i..] == prefix;
      erased := ErasePrefixInLeaf(t, current, prefix[i..], prefix);
    }
  }

  /** erase_prefix(), lines 1056-1061: the prefix runs into a leaf. */
  method ErasePrefixInLeaf<T>(t: Htrie<T>, n: Node<T>, rest: Key, ghost prefix: Key) returns (erased: nat)
    requires t.Valid() && n in t.repr && !n.isTrie && prefix == n.path + rest && rest != []
    modifies t`nbElements, t`contents, t`owner, n`bucket
    ensures erased == |WithPrefix(old(t.contents), prefix)|
    ensures PrefixErased(t, old(t.contents), prefix, old(LosesParent(t, prefix)), old(EmptiesLeaf(t, prefix)))
    ensures |n.bucket| <= |old(n.bucket)|
  {
    hide Htrie.Linked, Htrie.Filled, Htrie.Compact, WithPrefix, LosesParent, EmptiesLeaf, AllMatch;
    assert prefix[|n.path|..] == rest;
    EmptiesLeafAt(t, n, prefix);
    erased := ErasePrefixHashNode(t, n, rest);
  }

  lemma NothingAtAll<T>(t: Htrie<T>, prefix: Key)
    requires t.Valid() && t.contents == map[] && t.root == null
    ensures WithPrefix(t.contents, prefix) == {} && t.contents - WithPrefix(t.contents, prefix) == t.contents
    ensures !LosesParent(t, prefix) && !EmptiesLeaf(t, prefix)
  {
  }

  lemma NothingGone<T>(t: Htrie<T>, prefix: Key)
    requires WithPrefix(t.contents, prefix) == {}
    ensures t.contents - WithPrefix(t.contents, prefix) == t.contents
  {
  }

  // ---------------------------------------------------------------- both conditions do occur

  /** No leaf has more keys than it may hold on the way to a crowded prefix, so that a trie node stands there. */
  lemma CrowdedNode<T>(t: Htrie<T>, q: Key) returns (a: Node<T>)
    requires t.Invariant() && |WithPrefix(t.contents, q)| > t.burstThreshold
    ensures a in t.repr && a.isTrie && a.path == q
  {
    hide Htrie.Compact;
    var k :| k in WithPrefix(t.contents, q);
    var o := t.owner[k];
    assert o in t.repr && Htrie.Stores(o, k);
    if !o.isTrie && |o.path| <= |q| {
      assert o.path == k[..|o.path|] == q[..|o.path|];
      NotCrowded(t, o, q);
    }
    a := t.Ancestor(o, |q|);
  }

  lemma NotCrowded<T>(t: Htrie<T>, n: Node<T>, q: Key)
    requires t.Wf() && Htrie.LeavesWithin(t.repr, t.burstThreshold) && n in t.repr && !n.isTrie && n.path <= q
    ensures |WithPrefix(t.contents, q)| <= t.burstThreshold
  {
    hide Htrie.Linked, Htrie.Filled;
    OwnedSize(t, n);
    KeysAgree(t);
    forall k | k in WithPrefix(t.contents, q)
      ensures k in Owned(t.owner, n)
    {
      assert k[..|n.path|] == n.path;
      t.Descend(n, k, |n.path|);
    }
    SubsetSize(WithPrefix(t.contents, q), Owned(t.owner, n));
  }

  lemma SubsetSize(a: set<Key>, b: set<Key>)
    requires a <= b
    ensures |a| <= |b|
  {
    assert b == a + (b - a);
  }

  /** A family of maps whose trees all lose a value: p is a key, the prefix goes on from p by one character, more keys have
      it than a leaf may hold, and no key goes on from p by another character. */
  lemma CrowdedLosesParent<T>(t: Htrie<T>, p: Key, c: Byte)
    requires t.Invariant() && p in t.contents && |WithPrefix(t.contents, p + [c])| > t.burstThreshold
    requires forall k :: k in t.contents && p < k ==> k[|p|] == c
    ensures LosesParent(t, p + [c])
  {
    hide Htrie.Compact, Htrie.LeavesWithin;
    var n := CrowdedNode(t, p + [c]);
    var m := n.parent;
    assert n.path[..|p|] == p && m.path == p && n.childOf == c;
    assert p[..|p|] == p;
    t.Descend(m, p, |p|);
    assert Htrie.Stores(m, p) && m.Slotted();
    forall x | x in t.repr && x.parent == m
      ensures x.childOf == c
    {
      var l := KeyBelow(t, x);
      assert l[|p|] == x.path[|p|] && p == l[..|p|];
    }
    assert SoleChildOfValue(n);
  }

  /** Below every node there is a key. */
  lemma KeyBelow<T>(t: Htrie<T>, n: Node<T>) returns (l: Key)
    requires t.Valid() && n in t.repr
    ensures l in t.contents && n.path <= l
  {
    hide Htrie.Linked, Htrie.Filled, Htrie.Compact;
    var h := HolderBelow(t, n);
    l := HolderHasKey(t, h);
    KeysAgree(t);
    OwnerHolds(t, l);
  }

  method Put(t: Htrie<int>, k: Key, v: int)
    requires t.Invariant() && k !in t.contents
    modifies t`root, t`nbElements, t`contents, t`owner, t`repr, t.repr
    ensures t.Invariant() && t.contents == old(t.contents)[k := v] && fresh(t.repr - old(t.repr))
  {
    hide Htrie.Linked, Htrie.Filled, Htrie.Compact, Htrie.LeavesWithin;
    var p, inserted := t.Insert(k, v);
  }

  /** A tree made by insertions alone: it has the keys "a", "ab" and four more that begin with "ab". */
  method SixKeys() returns (t: Htrie<int>)
    ensures fresh(t) && fresh(t.repr) && t.Invariant() && t.burstThreshold == 4
    ensures t.contents == map[[97] := 0, [97, 98] := 1, [97, 98, 99] := 2, [97, 98, 100] := 3, [97, 98, 101] := 4, [97, 98, 102] := 5]
  {
    hide Htrie.Invariant;
    t := new Htrie(4);
    Put(t, [97], 0);
    Put(t, [97, 98], 1);
    Put(t, [97, 98, 99], 2);
    Put(t, [97, 98, 100], 3);
    Put(t, [97, 98, 101], 4);
    Put(t, [97, 98, 102], 5);
  }

  lemma SixKeysCrowd(contents: map<Key, int>)
    requires contents == map[[97] := 0, [97, 98] := 1, [97, 98, 99] := 2, [97, 98, 100] := 3, [97, 98, 101] := 4, [97, 98, 102] := 5]
    ensures |WithPrefix(contents, [97, 98])| == 5
    ensures contents - WithPrefix(contents, [97, 98]) == map[[97] := 0]
    ensures forall k :: k in contents && [97] < k ==> k[1] == 98
  {
    var five: set<Key> := {[97, 98], [97, 98, 99], [97, 98, 100], [97, 98, 101], [97, 98, 102]};
    assert WithPrefix(contents, [97, 98]) == five;
  }

  /** Erasing by the prefix "ab" then takes "a" away as well, and counts one element too many. */
  method LosesParentHappens() returns (t: Htrie<int>, erased: nat)
    ensures fresh(t) && erased == 5 && t.contents == map[] && t.nbElements == 1
  {
    hide Htrie.Linked, Htrie.Filled, Htrie.Compact, WithPrefix, LosesParent, EmptiesLeaf;
    t := SixKeys();
    SixKeysCrowd(t.contents);
    assert [97] + [98] == [97, 98];
    CrowdedLosesParent(t, [97], 98);
    ghost var was := t.contents;
    erased := ErasePrefix(t, [97, 98]);
    assert [97, 98][..1] == [97];
    assert map[[97] := 0] - {[97]} == map[];
  }

  /** A tree made by one insertion is one leaf; all its suffixes match. */
  lemma OneKeyEmpties(t: Htrie<int>)
    requires t.Valid() && t.contents == map[[97, 98] := 7] && t.root != null && !t.root.isTrie
    ensures EmptiesLeaf(t, [97]) && !LosesParent(t, [97])
    ensures |WithPrefix(t.contents, [97])| == 1 && t.contents - WithPrefix(t.contents, [97]) == map[]
  {
    hide Htrie.Compact;
    var leaf := t.root;
    assert leaf.path == [] && Htrie.Known(leaf, t.contents, t.owner);
    forall i | 0 <= i < |leaf.bucket|
      ensures [97] <= leaf.bucket[i].0
    {
      assert leaf.path + leaf.bucket[i].0 == leaf.bucket[i].0;
    }
    assert [97][0..] == [97] && [97] <= [97, 98];
    assert WithPrefix(t.contents, [97]) == {[97, 98]};
    EmptiesLeafAt(t, leaf, [97]);
  }

  /** With the key "ab" alone in the tree, erasing by the prefix "a" leaves an empty leaf in it. */
  method EmptiesLeafHappens() returns (t: Htrie<int>, erased: nat)
    ensures erased == 1 && t.contents == map[] && t.Wf() && !t.Valid()
  {
    hide Htrie.Linked, Htrie.Filled, Htrie.Compact, Htrie.Valid, LosesParent, EmptiesLeaf, WithPrefix, PrefixErased;
    t := OneKey();
    OneKeyEmpties(t);
    erased := ErasePrefix(t, [97]);
    StillWf(t, map[[97, 98] := 7], [97]);
  }

  lemma StillWf(t: Htrie<int>, was: map<Key, int>, prefix: Key)
    requires PrefixErased(t, was, prefix, false, true)
    ensures t.Wf() && !t.Valid() && t.contents == was - WithPrefix(was, prefix)
  {
    hide Htrie.Linked, Htrie.Filled, Htrie.Compact, WithPrefix;
  }

  method OneKey() returns (t: Htrie<int>)
    ensures fresh(t) && fresh(t.repr) && t.Valid() && t.contents == map[[97, 98] := 7]
    ensures t.root != null && !t.root.isTrie
  {
    hide Htrie.Linked, Htrie.Filled, Htrie.Compact, Htrie.LeavesWithin;
    t := new Htrie(4);
    var p, inserted := t.Insert([97, 98], 7);
  }
}
