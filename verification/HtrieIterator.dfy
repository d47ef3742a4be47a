/**
 htrie_hash_iterator (inc/tsl/htrie_hash.h): begin, end, increment and key. An iterator is a value,
 as in the source, and its methods update its fields step by step.
 */
module HtrieIterator {
  import opened HtrieNode
  import opened KeyOrder
  import opened Htrie

  /**
   m_current_trie_node, m_current_hash_node, m_array_hash_iterator, m_read_trie_node_value and
   m_prefix_filter. m_array_hash_end_iterator is the length of the bucket, and an iterator that does
   not filter has the empty filter.
   */
  datatype Iterator<T> = Iterator(
    trieNode: Node?<T>, hashNode: Node?<T>, index: nat, readValue: bool, filter: Key)

  // ---------------------------------------------------------------- the tree, read in order

  /** `n` holds an element itself. */
  ghost predicate Holder<T>(t: Htrie<T>, n: Node<T>)
    reads t, n
  {
    n in t.repr && (n.isTrie ==> n.value.Some?)
  }

  /** `r` is the first holder at or below the path `p`. */
  ghost predicate FirstBelow<T>(t: Htrie<T>, p: Key, r: Node<T>)
    reads t, t.repr
  {
    && r in t.repr && Holder(t, r) && p <= r.path
    && forall m :: m in t.repr && Holder(t, m) && p <= m.path ==> AtOrAfter(r.path, m.path)
  }

  /** `r` is the first holder to the right of `p`; null if there is none. */
  ghost predicate FirstRightOf<T>(t: Htrie<T>, p: Key, r: Node?<T>)
    reads t, t.repr
  {
    && (r != null ==> r in t.repr && Holder(t, r) && Right(p, r.path))
    && forall m :: m in t.repr && Holder(t, m) && Right(p, m.path) ==>
         r in t.repr && AtOrAfter(r.path, m.path)
  }

  /** The child of `n` on the way to `m`. */
  lemma WayDown<T>(t: Htrie<T>, n: Node<T>, m: Node<T>)
    requires t.Wf() && n in t.repr && m in t.repr && n.path <= m.path && n != m
    ensures |n.path| < |m.path| && n.isTrie && n.Slotted()
    ensures n.children[m.path[|n.path|]] != null
  {
    if |n.path| == |m.path| {
      t.Unique(n, m);
    }
    var a := t.Ancestor(m, |n.path|);
    t.Unique(a, n);
  }

  /** Below a trie node without a value, all lies in its first child or to the right of that. */
  lemma FirstChildLeads<T>(t: Htrie<T>, n: Node<T>, c: Byte, child: Node<T>, m: Node<T>)
    requires t.Wf() && n in t.repr && n.isTrie && n.Slotted()
    requires n.IsFirstFrom(0, c) && n.children[c] == child
    requires m in t.repr && n.path <= m.path && n != m
    ensures AtOrAfter(child.path, m.path)
  {
    WayDown(t, n, m);
    var d := m.path[|n.path|];
    assert child.path == n.path + [c];
    if d == c {
      assert m.path[..|child.path|] == child.path;
    } else {
      assert m.path[..|n.path|] == n.path == child.path[..|n.path|];
      assert RightAt(child.path, m.path, |n.path|);
    }
  }

  /** Nodes below depth `d`: what a descent still has before it. */
  ghost function Deeper<T>(t: Htrie<T>, d: nat): set<Node<T>>
    reads t, t.repr
  {
    set m | m in t.repr && |m.path| > d
  }

  lemma HollowOrNot<T>(t: Htrie<T>, n: Node<T>)
    requires t.Valid() && n in t.repr && n.isTrie
    ensures n.Slotted() && n.bucket == []
    ensures n.value == None ==> exists c :: 0 <= c < ALPHABET_SIZE && n.children[c] != null
  {
    assert n.Slotted() && !n.Hollow() && Htrie.Known(n, t.contents, t.owner);
  }

  /** Every node has a node with elements at or below it. */
  lemma HolderBelow<T>(t: Htrie<T>, n: Node<T>) returns (m: Node<T>)
    requires t.Valid() && n in t.repr
    ensures m in t.repr && Holder(t, m) && n.path <= m.path
    decreases |Deeper(t, |n.path|)|
  {
    if Holder(t, n) {
      m := n;
    } else {
      HollowOrNot(t, n);
      var c: Byte :| n.children[c] != null;
      var child := n.children[c];
      assert child in t.repr && child.parent == n && child.path == n.path + [c];
      assert child in Deeper(t, |n.path|) && child !in Deeper(t, |child.path|);
      assert Deeper(t, |child.path|) < Deeper(t, |n.path|);
      DeeperSize(t, |n.path|, |child.path|);
      m := HolderBelow(t, child);
    }
  }

  lemma DeeperSize<T>(t: Htrie<T>, d: nat, e: nat)
    requires Deeper(t, e) < Deeper(t, d)
    ensures |Deeper(t, e)| < |Deeper(t, d)|
  {
    var rest := Deeper(t, d) - Deeper(t, e);
    assert Deeper(t, d) == Deeper(t, e) + rest;
    assert rest == {} ==> Deeper(t, d) == Deeper(t, e);
  }

  /** What lies to the right of a node lies to the right of its parent, or below a later sibling. */
  lemma RightSplit<T>(t: Htrie<T>, x: Node<T>, m: Node<T>)
    requires t.Wf() && x in t.repr && m in t.repr && x.parent != null && Right(x.path, m.path)
    ensures x.parent in t.repr && x.parent.Slotted() && x.path == x.parent.path + [x.childOf]
    ensures Right(x.parent.path, m.path) ||
      (x.parent.path < m.path && m.path[|x.parent.path|] > x.childOf
       && x.parent.children[m.path[|x.parent.path|]] != null)
  {
    var u := x.parent;
    var i: nat :| RightAt(x.path, m.path, i);
    if i < |u.path| {
      assert u.path[..i] == x.path[..i];
      assert RightAt(u.path, m.path, i);
    } else {
      assert u.path == x.path[..i] == m.path[..i];
      WayDown(t, u, m);
    }
  }

  /** Moving up from a last child changes nothing about what is to the right. */
  lemma LastChild<T>(t: Htrie<T>, x: Node<T>, m: Node<T>)
    requires t.Wf() && x in t.repr && m in t.repr && x.parent != null && x.parent.Slotted()
    requires forall c :: x.childOf < c < |x.parent.children| ==> x.parent.children[c] == null
    ensures Right(x.path, m.path) <==> Right(x.parent.path, m.path)
  {
    if Right(x.path, m.path) {
      RightSplit(t, x, m);
    }
    if Right(x.parent.path, m.path) {
      assert x.parent.path <= x.path;
      RightExtends(x.parent.path, m.path, x.path, m.path);
    }
  }

  /** The next sibling comes before all else on the right. */
  lemma NextSibling<T>(t: Htrie<T>, x: Node<T>, c: Byte, y: Node<T>, m: Node<T>)
    requires t.Wf() && x in t.repr && m in t.repr && x.parent != null && x.parent.isTrie && x.parent.Slotted()
    requires x.parent.IsFirstFrom(x.childOf + 1, c) && x.parent.children[c] == y
    ensures y in t.repr && Right(x.path, y.path)
    ensures Right(x.path, m.path) ==> AtOrAfter(y.path, m.path)
  {
    var u := x.parent;
    assert u in t.repr && x.path == u.path + [x.childOf] && y.path == u.path + [c];
    assert x.path[..|u.path|] == u.path == y.path[..|u.path|];
    assert RightAt(x.path, y.path, |u.path|);
    if Right(x.path, m.path) {
      RightSplit(t, x, m);
      if Right(u.path, m.path) {
        RightExtends(u.path, m.path, y.path, m.path);
      } else {
        var d := m.path[|u.path|];
        assert m.path[..|u.path|] == u.path;
        if d == c {
          assert m.path[..|y.path|] == y.path;
        } else {
          assert RightAt(y.path, m.path, |u.path|);
        }
      }
    }
  }

  // ---------------------------------------------------------------- moving

  predicate IsEnd<T>(it: Iterator<T>) {
    it.trieNode == null && it.hashNode == null && !it.readValue
  }

  /** `it` stands at the first element that the holder `r` has. */
  ghost predicate StartsAt<T>(it: Iterator<T>, r: Node<T>)
    reads r
  {
    if r.isTrie then it.readValue && it.trieNode == r
    else !it.readValue && it.hashNode == r && it.trieNode == r.parent && it.index == 0
  }

  /** most_left_descendant_value_trie_node() */
  method MostLeftDescendantValueTrieNode<T>(t: Htrie<T>, s: Node<T>) returns (current: Node<T>)
    requires t.Valid() && s in t.repr && s.isTrie
    ensures current in t.repr && current.isTrie && s.path <= current.path && current.Slotted()
    ensures forall m :: m in t.repr && Holder(t, m) && s.path <= m.path ==> AtOrAfter(current.path, m.path)
    ensures current.value == None ==> exists c: Byte ::
      current.IsFirstFrom(0, c) && current.children[c] != null && !current.children[c].isTrie
  {
    hide Htrie.Linked, Htrie.Filled, Htrie.Compact, Right, Holder;
    current := s;
    while true
      invariant current in t.repr && current.isTrie && s.path <= current.path
      invariant forall m :: m in t.repr && Holder(t, m) && s.path <= m.path ==> AtOrAfter(current.path, m.path)
      decreases Deeper(t, |current.path|)
    {
      HollowOrNot(t, current);
      if current.value != None {
        return;
      }
      var child := current.FirstChild();
      if !child.isTrie {
        return;
      }
      StepDown(t, s.path, current, child);
      current := child;
    }
  }

  lemma StepDown<T>(t: Htrie<T>, p: Key, n: Node<T>, child: Node<T>)
    requires t.Wf() && n in t.repr && n.isTrie && n.Slotted() && n.value == None && p <= n.path
    requires exists c: Byte :: n.IsFirstFrom(0, c) && n.children[c] == child
    requires forall m :: m in t.repr && Holder(t, m) && p <= m.path ==> AtOrAfter(n.path, m.path)
    ensures child in t.repr && p <= child.path && Deeper(t, |child.path|) < Deeper(t, |n.path|)
    ensures forall m :: m in t.repr && Holder(t, m) && p <= m.path ==> AtOrAfter(child.path, m.path)
  {
    var c: Byte :| n.IsFirstFrom(0, c) && n.children[c] == child;
    assert child.path == n.path + [c];
    assert child in Deeper(t, |n.path|) && child !in Deeper(t, |child.path|);
    forall m | m in t.repr && Holder(t, m) && p <= m.path
      ensures AtOrAfter(child.path, m.path)
    {
      if n.path <= m.path {
        FirstChildLeads(t, n, c, child, m);
      } else {
        RightExtends(n.path, m.path, child.path, m.path);
      }
    }
  }

  /** A leaf is all there is at or below itself. */
  lemma LeafIsFirst<T>(t: Htrie<T>, leaf: Node<T>)
    requires t.Wf() && leaf in t.repr && !leaf.isTrie
    ensures FirstBelow(t, leaf.path, leaf)
  {
    forall m | m in t.repr && Holder(t, m) && leaf.path <= m.path
      ensures AtOrAfter(leaf.path, m.path)
    {
    }
  }

  /** What the end of a descent means: the node itself, or its first child, a leaf. */
  lemma DescentEnds<T>(t: Htrie<T>, p: Key, n: Node<T>, child: Node?<T>)
    requires t.Wf() && n in t.repr && n.isTrie && n.Slotted() && p <= n.path
    requires forall m :: m in t.repr && Holder(t, m) && p <= m.path ==> AtOrAfter(n.path, m.path)
    requires n.value == None ==> child != null && !child.isTrie
    requires n.value == None ==> exists c: Byte :: n.IsFirstFrom(0, c) && n.children[c] == child
    ensures n.value.Some? ==> FirstBelow(t, p, n)
    ensures n.value == None ==> child in t.repr && child.parent == n && FirstBelow(t, p, child)
  {
    if n.value == None {
      var c: Byte :| n.IsFirstFrom(0, c) && n.children[c] == child;
      assert child.path == n.path + [c];
      StepDown(t, p, n, child);
    }
  }

  /** set_current_hash_node() */
  method SetCurrentHashNode<T>(it: Iterator<T>, hnode: Node<T>) returns (it': Iterator<T>)
    ensures it' == it.(hashNode := hnode, index := 0)
  {
    it' := it.(hashNode := hnode, index := 0);
  }

  /** set_most_left_descendant_as_next_node() */
  method SetMostLeftDescendantAsNextNode<T>(t: Htrie<T>, it: Iterator<T>, searchStart: Node<T>)
    returns (it': Iterator<T>, ghost r: Node<T>)
    requires t.Valid() && searchStart in t.repr && !it.readValue
    requires !searchStart.isTrie ==> it.trieNode == searchStart.parent
    ensures FirstBelow(t, searchStart.path, r) && StartsAt(it', r) && it'.filter == it.filter
  {
    hide Htrie.Linked, Htrie.Filled, Htrie.Compact, FirstBelow, AtOrAfter, Holder;
    if !searchStart.isTrie {
      LeafIsFirst(t, searchStart);
      r := searchStart;
      it' := SetCurrentHashNode(it, searchStart);
    } else {
      var tnode := MostLeftDescendantValueTrieNode(t, searchStart);
      it' := it.(trieNode := tnode);
      if tnode.value != None {
        DescentEnds(t, searchStart.path, tnode, null);
        r := tnode;
        it' := it'.(readValue := true);
      } else {
        var child := tnode.FirstChild();
        FirstIsFirst(tnode, child);
        DescentEnds(t, searchStart.path, tnode, child);
        r := child;
        it' := SetCurrentHashNode(it', child);
      }
    }
  }

  lemma FirstIsFirst<T>(n: Node<T>, child: Node?<T>)
    requires n.isTrie && n.Slotted()
    requires exists c: Byte :: n.IsFirstFrom(0, c) && n.children[c] != null && !n.children[c].isTrie
    requires child != null ==> exists c: Byte :: n.IsFirstFrom(0, c) && n.children[c] == child
    requires child == null <==> forall c :: 0 <= c < ALPHABET_SIZE ==> n.children[c] == null
    ensures child != null && !child.isTrie
    ensures exists c: Byte :: n.IsFirstFrom(0, c) && n.children[c] == child
  {
    var c: Byte :| n.IsFirstFrom(0, c) && n.children[c] != null && !n.children[c].isTrie;
    var d: Byte :| n.IsFirstFrom(0, d) && n.children[d] == child;
    assert c == d;
  }

  /** set_as_end_iterator() */
  method SetAsEndIterator<T>(it: Iterator<T>) returns (it': Iterator<T>)
    ensures IsEnd(it') && it'.filter == it.filter
  {
    it' := it.(trieNode := null, hashNode := null, readValue := false);
  }

  /** `next` comes before all else to the right of `p`; null if there is nothing there. */
  ghost predicate LeadsRightOf<T>(t: Htrie<T>, p: Key, next: Node?<T>)
    reads t, t.repr
  {
    && (next != null ==> next in t.repr && Right(p, next.path))
    && forall m :: m in t.repr && Right(p, m.path) ==> next in t.repr && AtOrAfter(next.path, m.path)
  }

  /** One test of the loop of set_next_node_ascending(). */
  lemma SiblingLeads<T>(t: Htrie<T>, x: Node<T>, next: Node?<T>)
    requires t.Wf() && x in t.repr && x.parent != null && x.parent.isTrie && x.parent.Slotted()
    requires next == null <==> forall c :: x.childOf < c < ALPHABET_SIZE ==> x.parent.children[c] == null
    requires next != null ==> exists c: Byte :: x.parent.IsFirstFrom(x.childOf + 1, c) && x.parent.children[c] == next
    ensures next != null ==> LeadsRightOf(t, x.path, next) && next.parent == x.parent
    ensures next == null ==> forall m :: m in t.repr ==> (Right(x.path, m.path) <==> Right(x.parent.path, m.path))
  {
    if next == null {
      forall m | m in t.repr
        ensures Right(x.path, m.path) <==> Right(x.parent.path, m.path)
      {
        LastChild(t, x, m);
      }
    } else {
      var c: Byte :| x.parent.IsFirstFrom(x.childOf + 1, c) && x.parent.children[c] == next;
      NextSibling(t, x, c, next, x);
      forall m | m in t.repr && Right(x.path, m.path)
        ensures AtOrAfter(next.path, m.path)
      {
        NextSibling(t, x, c, next, m);
      }
    }
  }

  lemma NothingRightOfRoot<T>(t: Htrie<T>, n: Node<T>, m: Node<T>)
    requires t.Wf() && n in t.repr && m in t.repr && n.parent == null
    ensures !Right(n.path, m.path)
  {
  }

  lemma InTrie<T>(t: Htrie<T>, x: Node<T>)
    requires t.Wf() && x in t.repr
    ensures x.parent != null ==> x.parent in t.repr && x.parent.isTrie && x.parent.Slotted()
    ensures x.parent != null ==> |x.parent.path| + 1 == |x.path|
  {
  }

  /** The loop of set_next_node_ascending() and of cend(): up, until there is a next sibling. */
  method Ascend<T>(t: Htrie<T>, child: Node<T>) returns (tnode: Node<T>, next: Node?<T>)
    requires t.Wf() && child in t.repr && child.parent != null
    ensures tnode in t.repr && tnode.isTrie && LeadsRightOf(t, child.path, next)
    ensures next != null ==> next.parent == tnode
  {
    hide Htrie.Linked, Htrie.Filled, Right;
    InTrie(t, child);
    tnode := child.parent;
    next := tnode.NextChild(child);
    ghost var x := child;
    SiblingLeads(t, x, next);
    while next == null && tnode.parent != null
      invariant tnode in t.repr && tnode.isTrie && tnode.Slotted()
      invariant next == null ==> forall m :: m in t.repr ==> (Right(child.path, m.path) <==> Right(tnode.path, m.path))
      invariant next != null ==> LeadsRightOf(t, child.path, next) && next.parent == tnode
      decreases |tnode.path|
    {
      InTrie(t, tnode);
      var currentChild := tnode;
      tnode := tnode.parent;
      next := tnode.NextChild(currentChild);
      SiblingLeads(t, currentChild, next);
    }
    if next == null {
      forall m | m in t.repr
        ensures !Right(child.path, m.path)
      {
        NothingRightOfRoot(t, tnode, m);
      }
    }
  }

  lemma FirstBelowNext<T>(t: Htrie<T>, p: Key, next: Node<T>, r: Node<T>)
    requires t.Wf() && LeadsRightOf(t, p, next) && next in t.repr && FirstBelow(t, next.path, r)
    ensures FirstRightOf(t, p, r)
  {
    RightExtends(p, next.path, p, r.path);
    forall m | m in t.repr && Holder(t, m) && Right(p, m.path)
      ensures AtOrAfter(r.path, m.path)
    {
      if !(next.path <= m.path) {
        RightExtends(next.path, m.path, r.path, m.path);
      }
    }
  }

  /** set_next_node_ascending() */
  method SetNextNodeAscending<T>(t: Htrie<T>, it: Iterator<T>, child: Node<T>)
    returns (it': Iterator<T>, ghost r: Node?<T>)
    requires t.Valid() && child in t.repr && child.parent != null && it.trieNode == child.parent && !it.readValue
    ensures FirstRightOf(t, child.path, r) && it'.filter == it.filter
    ensures if r == null then IsEnd(it') else StartsAt(it', r)
  {
    hide Htrie.Linked, Htrie.Filled, Htrie.Compact, Right, FirstBelow;
    var tnode, next := Ascend(t, child);
    it' := it.(trieNode := tnode);
    if next == null {
      r := null;
      it' := SetAsEndIterator(it');
    } else {
      ghost var first;
      it', first := SetMostLeftDescendantAsNextNode(t, it', next);
      FirstBelowNext(t, child.path, next, first);
      r := first;
    }
  }

  /** `r` is the first holder after the node at `p`; null if there is none. */
  ghost predicate NextHolder<T>(t: Htrie<T>, p: Key, r: Node?<T>)
    reads t, t.repr
  {
    && (r != null ==> r in t.repr && Holder(t, r) && Before(p, r.path))
    && forall m :: m in t.repr && Holder(t, m) && Before(p, m.path) ==>
         r in t.repr && AtOrAfter(r.path, m.path)
  }

  /** `it` stands at an element of the tree. */
  ghost predicate Standing<T>(t: Htrie<T>, it: Iterator<T>)
    reads t, t.repr
  {
    if it.readValue then
      it.trieNode in t.repr && it.trieNode.isTrie && it.trieNode.value.Some?
    else
      && it.hashNode in t.repr && !it.hashNode.isTrie && it.trieNode == it.hashNode.parent
      && it.index < |it.hashNode.bucket|
  }

  /** The node an iterator stands at. */
  ghost function NodeOf<T>(t: Htrie<T>, it: Iterator<T>): Node<T>
    requires Standing(t, it)
    reads t, t.repr
  {
    if it.readValue then it.trieNode else it.hashNode
  }

  /** `j` is the first index from `i` on whose suffix starts with `filter`, or the end. */
  ghost predicate NextMatch<T>(b: Bucket<T>, filter: Key, i: nat, j: nat) {
    && i <= j <= |b|
    && (forall l :: i <= l < j ==> !(filter <= b[l].0))
    && (j < |b| ==> filter <= b[j].0)
  }

  lemma LeafNext<T>(t: Htrie<T>, leaf: Node<T>, r: Node?<T>)
    requires t.Wf() && leaf in t.repr && !leaf.isTrie && FirstRightOf(t, leaf.path, r)
    ensures NextHolder(t, leaf.path, r)
  {
    forall m | m in t.repr && Holder(t, m) && Before(leaf.path, m.path)
      ensures Right(leaf.path, m.path)
    {
      if leaf.path <= m.path {
        WayDown(t, leaf, m);
      }
    }
    if r != null {
      RightIrreflexive(leaf.path);
    }
  }

  lemma ChildlessNext<T>(t: Htrie<T>, n: Node<T>, r: Node?<T>)
    requires t.Wf() && n in t.repr && n.isTrie && n.Slotted() && FirstRightOf(t, n.path, r)
    requires forall c :: 0 <= c < ALPHABET_SIZE ==> n.children[c] == null
    ensures NextHolder(t, n.path, r)
  {
    forall m | m in t.repr && Holder(t, m) && Before(n.path, m.path)
      ensures Right(n.path, m.path)
    {
      if n.path <= m.path {
        WayDown(t, n, m);
      }
    }
    if r != null {
      RightIrreflexive(n.path);
    }
  }

  lemma RootLeafNext<T>(t: Htrie<T>, n: Node<T>)
    requires t.Wf() && n in t.repr && n.parent == null
    ensures FirstRightOf(t, n.path, null)
  {
    forall m | m in t.repr
      ensures !Right(n.path, m.path)
    {
      NothingRightOfRoot(t, n, m);
    }
  }

  lemma FirstChildNext<T>(t: Htrie<T>, n: Node<T>, child: Node<T>, r: Node<T>)
    requires t.Wf() && n in t.repr && n.isTrie && n.Slotted()
    requires exists c: Byte :: n.IsFirstFrom(0, c) && n.children[c] == child
    requires child in t.repr && FirstBelow(t, child.path, r)
    ensures NextHolder(t, n.path, r)
  {
    var c: Byte :| n.IsFirstFrom(0, c) && n.children[c] == child;
    assert child.path == n.path + [c];
    forall m | m in t.repr && Holder(t, m) && Before(n.path, m.path)
      ensures AtOrAfter(r.path, m.path)
    {
      if n.path <= m.path {
        FirstChildLeads(t, n, c, child, m);
        if !(child.path <= m.path) {
          RightExtends(child.path, m.path, r.path, m.path);
        }
      } else {
        RightExtends(n.path, m.path, r.path, m.path);
      }
    }
  }

  /** skip_hash_node(), and what operator++ and filter_prefix() do at the end of a bucket. */
  method LeaveLeaf<T>(t: Htrie<T>, it: Iterator<T>) returns (it': Iterator<T>, ghost r: Node?<T>)
    requires t.Valid() && !it.readValue && it.hashNode in t.repr && !it.hashNode.isTrie
    requires it.trieNode == it.hashNode.parent
    ensures FirstRightOf(t, it.hashNode.path, r) && it'.filter == it.filter
    ensures if r == null then IsEnd(it') else StartsAt(it', r)
  {
    if it.trieNode == null {
      RootLeafNext(t, it.hashNode);
      r := null;
      it' := SetAsEndIterator(it);
    } else {
      it', r := SetNextNodeAscending(t, it, it.hashNode);
    }
  }

  /** filter_prefix(): `j` is where in the bucket it stopped. */
  method FilterPrefix<T>(t: Htrie<T>, it: Iterator<T>)
    returns (it': Iterator<T>, ghost j: nat, ghost r: Node?<T>)
    requires t.Valid() && !it.readValue && Standing(t, it)
    ensures NextMatch(it.hashNode.bucket, it.filter, it.index, j)
    ensures j < |it.hashNode.bucket| ==> it' == it.(index := j)
    ensures j == |it.hashNode.bucket| ==>
      FirstRightOf(t, it.hashNode.path, r) && it'.filter == it.filter &&
      if r == null then IsEnd(it') else StartsAt(it', r)
  {
    hide Htrie.Linked, Htrie.Filled, Htrie.Compact, FirstRightOf;
    it', j, r := it, it.index, null;
    if it.filter == [] {
      return;
    }
    while !(it'.filter <= it'.hashNode.bucket[it'.index].0)
      invariant it.index <= it'.index < |it.hashNode.bucket| && it' == it.(index := it'.index)
      invariant forall l :: it.index <= l < it'.index ==> !(it.filter <= it.hashNode.bucket[l].0)
      decreases |it.hashNode.bucket| - it'.index
    {
      it' := it'.(index := it'.index + 1);
      if it'.index == |it'.hashNode.bucket| {
        j := it'.index;
        it', r := LeaveLeaf(t, it');
        return;
      }
    }
    j := it'.index;
  }

  /** Where operator++ takes an iterator; `j` and `r` say how far it went in its leaf, and on to which node. */
  ghost predicate Advanced<T>(t: Htrie<T>, it: Iterator<T>, it': Iterator<T>, j: nat, r: Node?<T>)
    requires Standing(t, it)
    reads t, t.repr
  {
    && it'.filter == it.filter
    && (!it.readValue ==> NextMatch(it.hashNode.bucket, it.filter, it.index + 1, j))
    && if !it.readValue && j < |it.hashNode.bucket| then it' == it.(index := j)
       else NextHolder(t, NodeOf(t, it).path, r) && if r == null then IsEnd(it') else r in t.repr && StartsAt(it', r)
  }

  lemma FirstChildIn<T>(t: Htrie<T>, n: Node<T>, child: Node<T>)
    requires t.Wf() && n in t.repr && n.isTrie && n.Slotted()
    requires exists c: Byte :: n.IsFirstFrom(0, c) && n.children[c] == child
    ensures child in t.repr && child.parent == n
  {
  }

  /** operator++, standing at a trie node's value */
  method IncrementFromValue<T>(t: Htrie<T>, it: Iterator<T>) returns (it': Iterator<T>, ghost r: Node?<T>)
    requires t.Valid() && it.readValue && Standing(t, it)
    ensures Advanced(t, it, it', 0, r)
  {
    var tnode := it.trieNode;
    hide Htrie.Linked, Htrie.Filled, Htrie.Compact, FirstBelow, FirstRightOf, NextHolder;
    InTrie(t, tnode);
    HollowOrNot(t, tnode);
    it' := it.(readValue := false);
    var child := tnode.FirstChild();
    if child != null {
      FirstChildIn(t, tnode, child);
      it', r := SetMostLeftDescendantAsNextNode(t, it', child);
      FirstChildNext(t, tnode, child, r);
    } else {
      if tnode.parent != null {
        it' := it'.(trieNode := tnode.parent);
        it', r := SetNextNodeAscending(t, it', tnode);
      } else {
        RootLeafNext(t, tnode);
        r := null;
        it' := SetAsEndIterator(it');
      }
      ChildlessNext(t, tnode, r);
    }
  }

  /** operator++ */
  method Increment<T>(t: Htrie<T>, it: Iterator<T>) returns (it': Iterator<T>, ghost j: nat, ghost r: Node?<T>)
    requires t.Valid() && Standing(t, it)
    ensures Advanced(t, it, it', j, r)
  {
    hide Htrie.Linked, Htrie.Filled, Htrie.Compact;
    if it.readValue {
      j := 0;
      it', r := IncrementFromValue(t, it);
    } else {
      it' := it.(index := it.index + 1);
      j := it'.index;
      if it'.index != |it.hashNode.bucket| {
        it', j, r := FilterPrefix(t, it');
      } else {
        it', r := LeaveLeaf(t, it');
      }
      if j == |it.hashNode.bucket| {
        LeafNext(t, it.hashNode, r);
      }
    }
  }

  // ---------------------------------------------------------------- begin, end and key

  /** cbegin(search_start_node) */
  method CBegin<T>(t: Htrie<T>, searchStart: Node<T>) returns (it: Iterator<T>, ghost r: Node<T>)
    requires t.Valid() && searchStart in t.repr
    ensures FirstBelow(t, searchStart.path, r) && StartsAt(it, r) && it.filter == []
  {
    hide Htrie.Linked, Htrie.Filled, Htrie.Compact, FirstBelow, AtOrAfter, Holder;
    if !searchStart.isTrie {
      LeafIsFirst(t, searchStart);
      return Iterator(searchStart.parent, searchStart, 0, false, []), searchStart;
    }
    var tnode := MostLeftDescendantValueTrieNode(t, searchStart);
    if tnode.value != None {
      DescentEnds(t, searchStart.path, tnode, null);
      return Iterator(tnode, null, 0, true, []), tnode;
    }
    var child := tnode.FirstChild();
    FirstIsFirst(tnode, child);
    DescentEnds(t, searchStart.path, tnode, child);
    return Iterator(child.parent, child, 0, false, []), child;
  }

  /** cend(search_start_node) */
  method CEnd<T>(t: Htrie<T>, searchStart: Node<T>) returns (it: Iterator<T>, ghost r: Node?<T>)
    requires t.Valid() && searchStart in t.repr
    ensures FirstRightOf(t, searchStart.path, r) && it.filter == []
    ensures if r == null then IsEnd(it) else StartsAt(it, r)
  {
    hide Htrie.Linked, Htrie.Filled, Htrie.Compact, FirstBelow, FirstRightOf, LeadsRightOf;
    if searchStart.parent == null {
      RootLeafNext(t, searchStart);
      return Iterator(null, null, 0, false, []), null;
    }
    var tnode, next := Ascend(t, searchStart);
    if next == null {
      NothingThere(t, searchStart.path);
      return Iterator(null, null, 0, false, []), null;
    }
    NextIn(t, searchStart.path, next);
    ghost var first;
    it, first := CBegin(t, next);
    FirstBelowNext(t, searchStart.path, next, first);
    r := first;
  }

  lemma NothingThere<T>(t: Htrie<T>, p: Key)
    requires LeadsRightOf(t, p, null)
    ensures FirstRightOf(t, p, null)
  {
  }

  lemma NextIn<T>(t: Htrie<T>, p: Key, next: Node<T>)
    requires LeadsRightOf(t, p, next)
    ensures next in t.repr
  {
  }

  /** begin() */
  method Begin<T>(t: Htrie<T>) returns (it: Iterator<T>, ghost r: Node?<T>)
    requires t.Valid()
    ensures it.filter == []
    ensures t.contents == map[] ==> IsEnd(it)
    ensures t.contents != map[] ==> r != null && FirstBelow(t, [], r) && StartsAt(it, r)
  {
    hide Htrie.Linked, Htrie.Filled, Htrie.Compact, FirstBelow;
    if t.nbElements == 0 {
      return Iterator(null, null, 0, false, []), null;
    }
    SomeRoot(t);
    ghost var first;
    it, first := CBegin(t, t.root);
    r := first;
  }

  lemma SomeRoot<T>(t: Htrie<T>)
    requires t.Valid() && t.contents != map[]
    ensures t.root != null && t.root in t.repr && t.root.path == []
  {
    var k :| k in t.contents;
    assert t.owner[k] in t.repr;
  }

  /** std::reverse() */
  function Reversed(s: Key): Key {
    if s == [] then [] else [s[|s| - 1]] + Reversed(s[..|s| - 1])
  }

  /** The key an iterator stands at. */
  ghost function ElementKey<T>(t: Htrie<T>, it: Iterator<T>): Key
    requires Standing(t, it)
    reads t, t.repr
  {
    if it.readValue then it.trieNode.path else it.hashNode.path + it.hashNode.bucket[it.index].0
  }

  /** The loop of key(): the characters on the way up to the root. */
  method PathUp<T>(t: Htrie<T>, start: Node?<T>) returns (buffer: Key)
    requires t.Wf() && (start != null ==> start in t.repr)
    ensures Reversed(buffer) == if start == null then [] else start.path
  {
    buffer := [];
    var tnode := start;
    while tnode != null && tnode.parent != null
      invariant tnode == null <==> start == null
      invariant tnode == null ==> buffer == []
      invariant tnode != null ==> tnode in t.repr && tnode.path + Reversed(buffer) == start.path
      decreases if tnode == null then 0 else |tnode.path|
    {
      assert tnode.path == tnode.parent.path + [tnode.childOf];
      assert (buffer + [tnode.childOf])[..|buffer|] == buffer;
      buffer := buffer + [tnode.childOf];
      tnode := tnode.parent;
    }
    if tnode != null {
      assert tnode.path == [] && [] + Reversed(buffer) == Reversed(buffer);
    }
  }

  /** key() */
  method GetKey<T>(t: Htrie<T>, it: Iterator<T>) returns (key: Key)
    requires t.Wf() && Standing(t, it)
    ensures key == ElementKey(t, it) && key in t.contents
  {
    StandingFacts(t, it);
    hide Htrie.Linked, Htrie.Filled;
    key := PathUp(t, it.trieNode);
    key := Reversed(key);
    if !it.readValue {
      if it.hashNode.parent != null {
        key := key + [it.hashNode.childOf];
      }
      key := key + it.hashNode.bucket[it.index].0;
    }
  }

  /** value() */
  method GetValue<T>(t: Htrie<T>, it: Iterator<T>) returns (v: T)
    requires t.Wf() && Standing(t, it)
    ensures ElementKey(t, it) in t.contents && v == t.contents[ElementKey(t, it)]
  {
    StandingFacts(t, it);
    v := if it.readValue then it.trieNode.value.value else it.hashNode.bucket[it.index].1;
  }

  lemma StandingFacts<T>(t: Htrie<T>, it: Iterator<T>)
    requires t.Wf() && Standing(t, it)
    ensures it.trieNode != null ==> it.trieNode in t.repr
    ensures !it.readValue ==>
      it.hashNode.path == if it.trieNode == null then [] else it.trieNode.path + [it.hashNode.childOf]
    ensures ElementKey(t, it) in t.contents && t.owner[ElementKey(t, it)] == NodeOf(t, it)
    ensures t.contents[ElementKey(t, it)] ==
      if it.readValue then it.trieNode.value.value else it.hashNode.bucket[it.index].1
  {
    assert Htrie.Known(NodeOf(t, it), t.contents, t.owner);
    if !it.readValue {
      assert it.hashNode.parent == it.trieNode;
    }
  }
}
