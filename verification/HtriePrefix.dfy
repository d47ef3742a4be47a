/**
 Lookups by prefix (inc/tsl/htrie_hash.h): longest_prefix() and equal_prefix_range().
 */
module HtriePrefix {
  import opened HtrieNode
  import opened KeyOrder
  import opened Htrie
  import opened HtrieIterator
  import opened HtrieTraversal
  import opened HtrieErase

  // ---------------------------------------------------------------- longest_prefix

  /** `p` is the longest stored prefix of `value` that is shorter than `limit`, or End. */
  ghost predicate LongestBelow<T>(t: Htrie<T>, value: Key, limit: nat, p: Position<T>)
    reads t, t.repr
  {
    if p == End then forall k :: k in t.contents && k <= value ==> |k| >= limit
    else exists k :: IsLongest(t, value, limit, p, k)
  }

  ghost predicate IsLongest<T>(t: Htrie<T>, value: Key, limit: nat, p: Position<T>, k: Key)
    reads t, t.repr
  {
    && t.Holds(p, k) && k in t.contents && k <= value && |k| < limit
    && forall l :: l in t.contents && l <= value && |l| < limit ==> |l| <= |k|
  }

  /** A trie node with a value, met on the way down. */
  lemma PassNode<T>(t: Htrie<T>, value: Key, n: Node<T>, i: nat, p: Position<T>)
    requires t.Wf() && n in t.repr && n.isTrie && i <= |value| && n.path == value[..i]
    requires LongestBelow(t, value, i, p)
    ensures LongestBelow(t, value, i + 1, if n.value.Some? then AtValue(n) else p)
  {
    t.ValueFacts(n);
    forall l | l in t.contents && l <= value && |l| < i + 1
      ensures |l| < i || (l == n.path && n.value.Some?)
    {
      if |l| == i {
        assert l == value[..i];
      }
    }
    if n.value.Some? {
      assert IsLongest(t, value, i + 1, AtValue(n), n.path);
    } else if p != End {
      var k :| IsLongest(t, value, i, p, k);
      assert IsLongest(t, value, i + 1, p, k);
    }
  }

  /** No child on the way: nothing longer is stored. */
  lemma WayEnds<T>(t: Htrie<T>, value: Key, n: Node<T>, i: nat, p: Position<T>)
    requires t.Wf() && n in t.repr && n.isTrie && i < |value| && n.path == value[..i] && n.Slotted()
    requires n.children[value[i]] == null && LongestBelow(t, value, i + 1, p)
    ensures LongestBelow(t, value, |value| + 1, p)
  {
    forall l | l in t.contents && l <= value
      ensures |l| < i + 1
    {
      if |l| > i {
        assert l[..i] == value[..i] && l[i] == value[i];
        t.Descend(n, l, i);
      }
    }
    if p != End {
      var k :| IsLongest(t, value, i + 1, p, k);
      assert IsLongest(t, value, |value| + 1, p, k);
    }
  }

  /** A leaf on the way: the keys that are still to be considered are in its bucket. */
  lemma LeafOnWay<T>(t: Htrie<T>, value: Key, n: Node<T>, i: nat, l: Key)
    requires t.Wf() && n in t.repr && !n.isTrie && i <= |value| && n.path == value[..i]
    requires l in t.contents && l <= value && |l| >= i
    ensures HasKey(n.bucket, value[i..|l|])
  {
    assert l[..i] == value[..i] && l[i..] == value[i..|l|];
    t.Descend(n, l, i);
  }

  lemma LeafFound<T>(t: Htrie<T>, value: Key, n: Node<T>, i: nat, size: nat, index: nat)
    requires t.Wf() && n in t.repr && !n.isTrie && i <= size <= |value| && n.path == value[..i]
    requires index < |n.bucket| && n.bucket[index].0 == value[i..size]
    requires forall s :: size < s <= |value| ==> !HasKey(n.bucket, value[i..s])
    ensures LongestBelow(t, value, |value| + 1, AtEntry(n, index))
  {
    var k := value[..size];
    assert k == n.path + n.bucket[index].0;
    assert Htrie.Known(n, t.contents, t.owner);
    forall l | l in t.contents && l <= value
      ensures |l| <= size
    {
      if |l| > size {
        LeafOnWay(t, value, n, i, l);
      }
    }
    assert IsLongest(t, value, |value| + 1, AtEntry(n, index), k);
  }

  lemma LeafNotFound<T>(t: Htrie<T>, value: Key, n: Node<T>, i: nat, p: Position<T>)
    requires t.Wf() && n in t.repr && !n.isTrie && i <= |value| && n.path == value[..i]
    requires LongestBelow(t, value, i, p)
    requires forall s :: i <= s <= |value| ==> !HasKey(n.bucket, value[i..s])
    ensures LongestBelow(t, value, |value| + 1, p)
  {
    forall l | l in t.contents && l <= value
      ensures |l| < i
    {
      if |l| >= i {
        LeafOnWay(t, value, n, i, l);
      }
    }
    if p != End {
      var k :| IsLongest(t, value, i, p, k);
      assert IsLongest(t, value, |value| + 1, p, k);
    }
  }

  /** The probing of a leaf, from the longest remaining string to the empty one. */
  method ProbeLeaf<T>(t: Htrie<T>, value: Key, n: Node<T>, ivalue: nat, longest: Position<T>)
    returns (p: Position<T>)
    requires t.Wf() && n in t.repr && !n.isTrie && ivalue <= |value| && n.path == value[..ivalue]
    requires LongestBelow(t, value, ivalue, longest)
    ensures LongestBelow(t, value, |value| + 1, p)
  {
    hide Htrie.Linked, Htrie.Filled, LongestBelow, HasKey;
    var i := ivalue;
    while i <= |value|
      invariant ivalue <= i <= |value| + 1
      invariant forall s :: ivalue + |value| - i < s <= |value| ==> !HasKey(n.bucket, value[ivalue..s])
    {
      var size := ivalue + (|value| - i);
      var index := FindInBucket(n.bucket, value[ivalue..size]);
      if index < |n.bucket| {
        LeafFound(t, value, n, ivalue, size, index);
        return AtEntry(n, index);
      }
      i := i + 1;
    }
    LeafNotFound(t, value, n, ivalue, longest);
    p := longest;
  }

  /** longest_prefix() */
  method LongestPrefix<T>(t: Htrie<T>, value: Key) returns (p: Position<T>)
    requires t.Wf()
    ensures p == End ==> forall k :: k in t.contents ==> !(k <= value)
    ensures p != End ==> exists k ::
      (t.Holds(p, k) && k in t.contents && k <= value && forall l :: l in t.contents && l <= value ==> |l| <= |k|)
  {
    if t.root == null {
      NoRoot(t);
      return End;
    }
    p := LongestPrefixImpl(t, value);
    LongestOverall(t, value, p);
  }

  lemma NoRoot<T>(t: Htrie<T>)
    requires t.Wf() && t.root == null
    ensures t.contents == map[]
  {
    assert t.owner.Keys == {};
  }

  lemma LongestOverall<T>(t: Htrie<T>, value: Key, p: Position<T>)
    requires LongestBelow(t, value, |value| + 1, p)
    ensures p == End ==> forall k :: k in t.contents ==> !(k <= value)
    ensures p != End ==> exists k ::
      (t.Holds(p, k) && k in t.contents && k <= value && forall l :: l in t.contents && l <= value ==> |l| <= |k|)
  {
    if p != End {
      var k :| IsLongest(t, value, |value| + 1, p, k);
    }
  }

  lemma RootIn<T>(t: Htrie<T>)
    requires t.Wf() && t.root != null
    ensures t.root in t.repr && t.root.path == []
  {
  }

  lemma ChildIn<T>(t: Htrie<T>, n: Node<T>, value: Key, i: nat)
    requires t.Wf() && n in t.repr && n.isTrie && i < |value| && n.path == value[..i]
    ensures n.Slotted()
    ensures n.children[value[i]] != null ==>
      n.children[value[i]] in t.repr && n.children[value[i]].path == value[..i + 1]
  {
    assert value[..i + 1] == value[..i] + [value[i]];
  }

  /** longest_prefix_impl() */
  method LongestPrefixImpl<T>(t: Htrie<T>, value: Key) returns (longest: Position<T>)
    requires t.Wf() && t.root != null
    ensures LongestBelow(t, value, |value| + 1, longest)
  {
    hide Htrie.Linked, Htrie.Filled, LongestBelow;
    RootIn(t);
    var current: Node<T> := t.root;
    longest := End;
    NothingBelowZero(t, value);
    var i := 0;
    while i < |value|
      invariant i <= |value| && current in t.repr && current.path == value[..i]
      invariant LongestBelow(t, value, i, longest)
    {
      if !current.isTrie {
        longest := ProbeLeaf(t, value, current, i, longest);
        return;
      }
      PassNode(t, value, current, i, longest);
      ChildIn(t, current, value, i);
      if current.value != None {
        longest := AtValue(current);
      }
      if current.children[value[i]] == null {
        WayEnds(t, value, current, i, longest);
        return;
      }
      current := current.children[value[i]];
      i := i + 1;
    }
    if current.isTrie {
      PassNode(t, value, current, i, longest);
      if current.value != None {
        longest := AtValue(current);
      }
    } else {
      var index := FindInBucket(current.bucket, []);
      assert value[i..i] == [];
      if index < |current.bucket| {
        LeafFound(t, value, current, i, i, index);
        longest := AtEntry(current, index);
      } else {
        LeafNotFound(t, value, current, i, longest);
      }
    }
  }

  lemma NothingBelowZero<T>(t: Htrie<T>, value: Key)
    ensures LongestBelow(t, value, 0, End)
  {
  }

  // ---------------------------------------------------------------- equal_prefix_range

  /** operator== on iterators */
  predicate Same<T>(lhs: Iterator<T>, rhs: Iterator<T>) {
    if lhs.trieNode != rhs.trieNode || lhs.readValue != rhs.readValue then false
    else if lhs.readValue then true
    else if lhs.hashNode != rhs.hashNode then false
    else lhs.hashNode == null || lhs.index == rhs.index
  }

  ghost function WithPrefix<T>(contents: map<Key, T>, prefix: Key): set<Key> {
    set k | k in contents && prefix <= k
  }

  /** Which keys have a prefix that leads to a node: those kept at or below it. */
  lemma PrefixAtNode<T>(t: Htrie<T>, n: Node<T>, k: Key)
    requires t.Wf() && n in t.repr && k in t.contents
    ensures n.path <= k <==> n.path <= t.owner[k].path
  {
    OwnerHolds(t, k);
    var o := t.owner[k];
    if n.path <= k {
      t.Descend(n, k, |n.path|);
      if |o.path| < |n.path| {
        var a := t.Ancestor(n, |o.path|);
        assert a.path == o.path;
        t.Unique(a, o);
      }
    }
  }

  /** Which keys have a prefix that runs into a leaf: some of those in it. */
  lemma PrefixInLeaf<T>(t: Htrie<T>, n: Node<T>, rest: Key, k: Key)
    requires t.Wf() && n in t.repr && !n.isTrie && k in t.contents
    ensures n.path + rest <= k <==>
      t.owner[k] == n && n.path <= k && rest <= k[|n.path|..] && HasKey(n.bucket, k[|n.path|..])
  {
    if n.path + rest <= k {
      assert n.path <= k && k[|n.path|..][..|rest|] == rest;
      t.Descend(n, k, |n.path|);
    }
    if n.path <= k && rest <= k[|n.path|..] {
      assert k == n.path + k[|n.path|..];
    }
  }

  /** No node on the way: no key has the prefix. */
  lemma PrefixNowhere<T>(t: Htrie<T>, n: Node<T>, prefix: Key, i: nat)
    requires t.Wf() && n in t.repr && n.isTrie && n.Slotted() && i < |prefix| && n.path == prefix[..i]
    requires n.children[prefix[i]] == null
    ensures WithPrefix(t.contents, prefix) == {}
  {
    forall k | k in t.contents && prefix <= k
      ensures false
    {
      assert k[..i] == prefix[..i] && k[i] == prefix[i];
      t.Descend(n, k, i);
    }
  }

  /** What equal_prefix_range() returns, by where the prefix leads. */
  ghost predicate RangeAtNode<T>(t: Htrie<T>, prefix: Key, begin: Iterator<T>, end: Iterator<T>, r: Node<T>, e: Node?<T>)
    reads t, t.repr
  {
    && begin.filter == [] && FirstBelow(t, prefix, r) && StartsAt(begin, r)
    && FirstRightOf(t, prefix, e) && if e == null then IsEnd(end) else StartsAt(end, e)
  }

  ghost predicate RangeInLeaf<T>(
      t: Htrie<T>, prefix: Key, begin: Iterator<T>, end: Iterator<T>, leaf: Node<T>, j: nat, e: Node?<T>)
    reads t, t.repr
  {
    && leaf in t.repr && !leaf.isTrie && leaf.path < prefix
    && var rest := prefix[|leaf.path|..];
    && begin.filter == rest && NextMatch(leaf.bucket, rest, 0, j)
    && FirstRightOf(t, leaf.path, e) && (if e == null then IsEnd(end) else StartsAt(end, e))
    && if j < |leaf.bucket| then begin == Iterator(leaf.parent, leaf, j, false, rest) else Same(begin, end)
  }

  /** Two first holders to the right of the same path are the same. */
  lemma FirstRightUnique<T>(t: Htrie<T>, p: Key, e: Node?<T>, f: Node?<T>)
    requires t.Wf() && FirstRightOf(t, p, e) && FirstRightOf(t, p, f)
    ensures e == f
  {
    if e != null && f != null {
      if e.path == f.path {
        t.Unique(e, f);
      } else {
        BeforeAsymmetric(e.path, f.path);
      }
    }
  }

  lemma SameStart<T>(t: Htrie<T>, it: Iterator<T>, end: Iterator<T>, e: Node?<T>)
    requires if e == null then IsEnd(it) else StartsAt(it, e)
    requires if e == null then IsEnd(end) else StartsAt(end, e)
    ensures Same(it, end)
  {
  }

  /** The range, when the prefix ends at a node. */
  method RangeOfNode<T>(t: Htrie<T>, n: Node<T>)
    returns (begin: Iterator<T>, end: Iterator<T>, ghost r: Node<T>, ghost e: Node?<T>)
    requires t.Valid() && n in t.repr
    ensures RangeAtNode(t, n.path, begin, end, r, e)
  {
    hide Htrie.Linked, Htrie.Filled, Htrie.Compact, FirstBelow, FirstRightOf;
    begin, r := CBegin(t, n);
    end, e := CEnd(t, n);
  }

  /** The range, when the prefix goes on beyond a leaf. */
  method RangeOfLeaf<T>(t: Htrie<T>, n: Node<T>, prefix: Key, iprefix: nat)
    returns (begin: Iterator<T>, end: Iterator<T>, ghost j: nat, ghost e: Node?<T>)
    requires t.Valid() && n in t.repr && !n.isTrie && iprefix < |prefix| && n.path == prefix[..iprefix]
    ensures RangeInLeaf(t, prefix, begin, end, n, j, e)
  {
    hide Htrie.Linked, Htrie.Filled, Htrie.Compact, FirstRightOf;
    LeafStands(t, n);
    begin := Iterator(n.parent, n, 0, false, prefix[iprefix..]);
    ghost var f;
    begin, j, f := FilterPrefix(t, begin);
    end, e := CEnd(t, n);
    if j == |n.bucket| {
      FirstRightUnique(t, n.path, e, f);
      SameStart(t, begin, end, e);
    }
  }

  lemma LeafStands<T>(t: Htrie<T>, n: Node<T>)
    requires t.Valid() && n in t.repr && !n.isTrie
    ensures |n.bucket| > 0
  {
    assert n.Slotted() && !n.Hollow() && Htrie.Known(n, t.contents, t.owner);
  }

  ghost predicate RangeOf<T>(t: Htrie<T>, prefix: Key, begin: Iterator<T>, end: Iterator<T>,
                             n: Node?<T>, r: Node?<T>, j: nat, e: Node?<T>)
    reads t, t.repr
  {
    || (n == null && e == null && IsEnd(begin) && begin.filter == [] && IsEnd(end)
        && WithPrefix(t.contents, prefix) == {})
    || (n in t.repr && n.path == prefix && r != null && RangeAtNode(t, prefix, begin, end, r, e))
    || (n != null && RangeInLeaf(t, prefix, begin, end, n, j, e))
  }

  /** equal_prefix_range(): the two iterators, and where they come from. */
  method EqualPrefixRange<T>(t: Htrie<T>, prefix: Key)
    returns (begin: Iterator<T>, end: Iterator<T>, ghost n: Node?<T>, ghost r: Node?<T>, ghost j: nat, ghost e: Node?<T>)
    requires t.Valid()
    ensures RangeOf(t, prefix, begin, end, n, r, j, e)
  {
    hide Htrie.Linked, Htrie.Filled, Htrie.Compact, RangeAtNode, RangeInLeaf;
    n, r, j, e := null, null, 0, null;
    if t.root == null {
      NoRoot(t);
      begin, end := Iterator(null, null, 0, false, []), Iterator(null, null, 0, false, []);
      return;
    }
    RootIn(t);
    t.WfParts();
    var current, i := t.Walk(t.root, prefix);
    assert [] + prefix[..i] == prefix[..i];
    if i < |prefix| {
      if current.isTrie {
        PrefixNowhere(t, current, prefix, i);
        begin, end := Iterator(null, null, 0, false, []), Iterator(null, null, 0, false, []);
      } else {
        begin, end, j, e := RangeOfLeaf(t, current, prefix, i);
        n := current;
      }
    } else {
      assert prefix[..i] == prefix;
      ghost var first;
      begin, end, first, e := RangeOfNode(t, current);
      n, r := current, first;
    }
  }

  // ---------------------------------------------------------------- walking a range

  /** `end` is at the first element of a node, or at the end. */
  ghost predicate Opens<T>(t: Htrie<T>, end: Iterator<T>, e: Node?<T>)
    reads t, t.repr
  {
    if e == null then IsEnd(end) else e in t.repr && Holder(t, e) && StartsAt(end, e) && Standing(t, end)
  }

  lemma AheadOfOpen<T>(t: Htrie<T>, end: Iterator<T>, e: Node?<T>, k: Key)
    requires t.Valid() && Opens(t, end, e) && k in t.owner && k in t.contents
    ensures Ahead(t, end, k) <==> e != null && AtOrAfter(e.path, t.owner[k].path)
  {
    if e != null {
      AheadFromStart(t, end, e, k);
    }
  }

  lemma RightOrBelow(p: Key, q: Key, o: Key)
    requires p <= q && AtOrAfter(q, o)
    ensures AtOrAfter(p, o)
  {
    if !(q <= o) {
      var i: nat :| RightAt(q, o, i);
      assert o[..i] == q[..i];
      if i < |p| {
        assert p[..i] == q[..i];
        assert RightAt(p, o, i);
      } else {
        assert p == q[..|p|] == q[..i][..|p|] == o[..i][..|p|];
      }
    }
  }

  /** A range found at a node has exactly the keys with the prefix ahead of its begin and not of its end. */
  lemma NodeRangeKey<T>(t: Htrie<T>, n: Node<T>, r: Node<T>, e: Node?<T>, k: Key)
    requires t.Wf() && n in t.repr && FirstBelow(t, n.path, r) && FirstRightOf(t, n.path, e) && k in t.contents
    ensures var o := t.owner[k];
      n.path <= k <==> AtOrAfter(r.path, o.path) && !(e != null && AtOrAfter(e.path, o.path))
  {
    var o := t.owner[k];
    OwnerHolds(t, k);
    PrefixAtNode(t, n, k);
    if n.path <= o.path {
      if e != null && AtOrAfter(e.path, o.path) {
        RightExtends(n.path, e.path, n.path, e.path);
        if e.path <= o.path {
          RightExtends(n.path, e.path, n.path, o.path);
        } else {
          RightTransitive(n.path, e.path, o.path);
          RightExtends(n.path, o.path, n.path, o.path);
        }
      }
    } else if AtOrAfter(r.path, o.path) {
      RightOrBelow(n.path, r.path, o.path);
    }
  }

  lemma NodeRangeStart<T>(t: Htrie<T>, n: Node<T>, begin: Iterator<T>, end: Iterator<T>, r: Node<T>, e: Node?<T>)
    requires t.Valid() && n in t.repr && RangeAtNode(t, n.path, begin, end, r, e)
    ensures Standing(t, begin) && Opens(t, end, e) && (IsEnd(end) || Standing(t, end))
    ensures Remaining(t, end) <= Remaining(t, begin)
    ensures WithPrefix(t.contents, n.path) == Remaining(t, begin) - Remaining(t, end)
  {
    hide Htrie.Linked, Htrie.Filled, Htrie.Compact, Ahead, AtOrAfter, RangeAtNode, Opens, Standing, StartsAt;
    NodeRangeStands(t, n, begin, end, r, e);
    KeysAgree(t);
    forall k | k in t.owner
      ensures n.path <= k <==> Ahead(t, begin, k) && !Ahead(t, end, k)
      ensures Ahead(t, end, k) ==> Ahead(t, begin, k)
    {
      NodeRangeAhead(t, n, begin, end, r, e, k);
    }
  }

  lemma NodeRangeStands<T>(t: Htrie<T>, n: Node<T>, begin: Iterator<T>, end: Iterator<T>, r: Node<T>, e: Node?<T>)
    requires t.Valid() && n in t.repr && RangeAtNode(t, n.path, begin, end, r, e)
    ensures Standing(t, begin) && Opens(t, end, e) && (IsEnd(end) || Standing(t, end))
  {
    StandingAfter(t, r, begin);
    if e != null {
      StandingAfter(t, e, end);
    }
  }

  lemma NodeRangeAhead<T>(t: Htrie<T>, n: Node<T>, begin: Iterator<T>, end: Iterator<T>, r: Node<T>, e: Node?<T>, k: Key)
    requires t.Valid() && n in t.repr && RangeAtNode(t, n.path, begin, end, r, e) && k in t.owner && k in t.contents
    requires Standing(t, begin) && Opens(t, end, e) && (IsEnd(end) || Standing(t, end))
    ensures n.path <= k <==> Ahead(t, begin, k) && !Ahead(t, end, k)
    ensures Ahead(t, end, k) ==> Ahead(t, begin, k)
  {
    hide Htrie.Linked, Htrie.Filled, Htrie.Compact, Ahead, AtOrAfter, Standing;
    NodeRangeKey(t, n, r, e, k);
    AheadFromStart(t, begin, r, k);
    AheadOfOpen(t, end, e, k);
    OwnerHolds(t, k);
    if e != null {
      FirstBeforeRight(n.path, r.path, e.path);
      ChainAtOrAfter(r.path, e.path, t.owner[k].path);
    }
  }

  lemma FirstBeforeRight(p: Key, q: Key, e: Key)
    requires p <= q && Right(p, e)
    ensures Right(q, e)
  {
    RightExtends(p, e, q, e);
  }

  lemma ChainAtOrAfter(p: Key, q: Key, r: Key)
    requires Right(p, q)
    ensures AtOrAfter(q, r) ==> AtOrAfter(p, r)
  {
    if q <= r {
      RightExtends(p, q, p, r);
    } else if Right(q, r) {
      RightTransitive(p, q, r);
    }
  }

  /** Before `end` is reached, the element an iterator stands at is not one from `end` on. */
  lemma NotYetThere<T>(t: Htrie<T>, it: Iterator<T>, end: Iterator<T>, e: Node?<T>)
    requires t.Valid() && (IsEnd(it) || Standing(t, it)) && Opens(t, end, e) && !Same(it, end)
    requires Remaining(t, end) <= Remaining(t, it)
    ensures Standing(t, it) && ElementKey(t, it) in t.contents && ElementKey(t, it) !in Remaining(t, end)
  {
    if e == null {
      NothingAhead(t, end);
      StandingFacts(t, it);
    } else {
      var k := ElementKey(t, end);
      StandingFacts(t, end);
      KeysAgree(t);
      AheadOfOpen(t, end, e, k);
      assert k in Remaining(t, end);
      StandingFacts(t, it);
      StandsWhere(t, it, end, e);
    }
  }

  /** The two iterators can only have each other's elements ahead when they are the same. */
  lemma StandsWhere<T>(t: Htrie<T>, it: Iterator<T>, end: Iterator<T>, e: Node<T>)
    requires t.Valid() && Standing(t, it) && Opens(t, end, e) && !Same(it, end)
    requires ElementKey(t, end) in t.owner && Ahead(t, it, ElementKey(t, end))
    requires ElementKey(t, it) in t.owner
    ensures !Ahead(t, end, ElementKey(t, it))
  {
    hide Htrie.Linked, Htrie.Filled, Htrie.Compact, Right;
    var n, k := NodeOf(t, it), ElementKey(t, end);
    StandingFacts(t, it);
    StandingFacts(t, end);
    KeysAgree(t);
    AheadOfOpen(t, end, e, ElementKey(t, it));
    if Before(n.path, e.path) {
      BeforeAsymmetric(n.path, e.path);
    } else if n == e && !n.isTrie {
      LeafStocked(t, it);
      BucketStep(n, 0, k);
    }
  }

  /** The keys of a leaf from an index on, as far as their suffixes start with `rest`. */
  ghost function LeafTodo<T>(leaf: Node<T>, rest: Key, i: nat): set<Key>
    reads leaf
  {
    set j | i <= j < |leaf.bucket| && rest <= leaf.bucket[j].0 :: leaf.path + leaf.bucket[j].0
  }

  lemma LeafTodoStart<T>(t: Htrie<T>, leaf: Node<T>, prefix: Key)
    requires t.Wf() && leaf in t.repr && !leaf.isTrie && leaf.path <= prefix
    ensures WithPrefix(t.contents, prefix) == LeafTodo(leaf, prefix[|leaf.path|..], 0)
  {
    var rest := prefix[|leaf.path|..];
    assert leaf.path + rest == prefix;
    assert Htrie.Known(leaf, t.contents, t.owner);
    forall k | k in t.contents && prefix <= k
      ensures k in LeafTodo(leaf, rest, 0)
    {
      PrefixInLeaf(t, leaf, rest, k);
      var i :| 0 <= i < |leaf.bucket| && leaf.bucket[i].0 == k[|leaf.path|..];
      assert k == leaf.path + leaf.bucket[i].0;
    }
    forall i | 0 <= i < |leaf.bucket| && rest <= leaf.bucket[i].0
      ensures prefix <= leaf.path + leaf.bucket[i].0
    {
    }
  }

  /** Skipping what does not match changes nothing; taking what matches takes one key. */
  lemma LeafTodoStep<T>(leaf: Node<T>, rest: Key, i: nat, j: nat)
    requires !leaf.isTrie && leaf.Stocked() && NextMatch(leaf.bucket, rest, i, j)
    ensures LeafTodo(leaf, rest, i) == LeafTodo(leaf, rest, j)
    ensures j < |leaf.bucket| ==>
      var k := leaf.path + leaf.bucket[j].0;
      k in LeafTodo(leaf, rest, j) && LeafTodo(leaf, rest, j + 1) == LeafTodo(leaf, rest, j) - {k}
    ensures j == |leaf.bucket| ==> LeafTodo(leaf, rest, j) == {}
  {
    forall l | 0 <= l < |leaf.bucket|
      ensures (leaf.path + leaf.bucket[l].0)[|leaf.path|..] == leaf.bucket[l].0
    {
    }
    forall l | i <= l < j
      ensures !(rest <= leaf.bucket[l].0)
    {
    }
  }

  /**
   The state of a walk over a range: `todo` are the keys still to come. `leaf` is null in a range found
   at a node, and otherwise the leaf that the prefix runs into.
   */
  ghost predicate OnWay<T>(t: Htrie<T>, leaf: Node?<T>, it: Iterator<T>, end: Iterator<T>, e: Node?<T>, todo: set<Key>)
    reads t, t.repr, t.owner.Values
  {
    && Opens(t, end, e)
    && (IsEnd(it) || Standing(t, it))
    && if leaf == null then
         it.filter == [] && Remaining(t, end) <= Remaining(t, it) && todo == Remaining(t, it) - Remaining(t, end)
       else
         && leaf in t.repr && !leaf.isTrie && FirstRightOf(t, leaf.path, e)
         && if Same(it, end) then todo == {}
            else !it.readValue && it.hashNode == leaf && Standing(t, it) && it.filter <= leaf.bucket[it.index].0
                 && todo == LeafTodo(leaf, it.filter, it.index)
  }

  lemma SameRemaining<T>(t: Htrie<T>, it: Iterator<T>, end: Iterator<T>)
    requires (IsEnd(it) || Standing(t, it)) && (IsEnd(end) || Standing(t, end)) && Same(it, end)
    ensures Remaining(t, it) == Remaining(t, end)
  {
  }

  lemma OnWayDone<T>(t: Htrie<T>, leaf: Node?<T>, it: Iterator<T>, end: Iterator<T>, e: Node?<T>, todo: set<Key>)
    requires OnWay(t, leaf, it, end, e, todo) && Same(it, end)
    ensures todo == {}
  {
    hide Remaining;
    if leaf == null {
      SameRemaining(t, it, end);
    }
  }

  lemma OnWayStands<T>(t: Htrie<T>, leaf: Node?<T>, it: Iterator<T>, end: Iterator<T>, e: Node?<T>, todo: set<Key>)
    requires t.Valid() && OnWay(t, leaf, it, end, e, todo) && !Same(it, end)
    ensures Standing(t, it) && ElementKey(t, it) in todo
  {
    hide Htrie.Linked, Htrie.Filled, Htrie.Compact, Remaining, Ahead;
    if leaf == null {
      NotYetThere(t, it, end, e);
      SelfAhead(t, it);
    }
  }

  lemma SelfAhead<T>(t: Htrie<T>, it: Iterator<T>)
    requires t.Wf() && Standing(t, it)
    ensures ElementKey(t, it) in Remaining(t, it)
  {
    StandingFacts(t, it);
    KeysAgree(t);
  }

  lemma OnWayStep<T>(t: Htrie<T>, leaf: Node?<T>, it: Iterator<T>, it': Iterator<T>, j: nat, r: Node?<T>,
                     end: Iterator<T>, e: Node?<T>, todo: set<Key>)
    requires t.Valid() && OnWay(t, leaf, it, end, e, todo) && !Same(it, end)
    requires Standing(t, it) && Advanced(t, it, it', j, r)
    ensures OnWay(t, leaf, it', end, e, todo - {ElementKey(t, it)})
  {
    hide Htrie.Linked, Htrie.Filled, Htrie.Compact, Remaining, Ahead, Advanced;
    if leaf == null {
      AheadStep(t, it, it', j, r);
      NotYetThere(t, it, end, e);
    } else {
      LeafStep(t, leaf, it, it', j, r, end, e);
    }
  }

  lemma LeafStep<T>(t: Htrie<T>, leaf: Node<T>, it: Iterator<T>, it': Iterator<T>, j: nat, r: Node?<T>,
                    end: Iterator<T>, e: Node?<T>)
    requires t.Valid() && leaf in t.repr && !leaf.isTrie && FirstRightOf(t, leaf.path, e) && Opens(t, end, e)
    requires !it.readValue && it.hashNode == leaf && Standing(t, it) && it.filter <= leaf.bucket[it.index].0
    requires Advanced(t, it, it', j, r) && !Same(it, end)
    ensures IsEnd(it') || Standing(t, it')
    ensures var todo' := LeafTodo(leaf, it.filter, it.index) - {ElementKey(t, it)};
      if Same(it', end) then todo' == {}
      else !it'.readValue && it'.hashNode == leaf && Standing(t, it') && it'.filter == it.filter
           && it'.filter <= leaf.bucket[it'.index].0 && todo' == LeafTodo(leaf, it'.filter, it'.index)
  {
    hide Htrie.Linked, Htrie.Filled, Htrie.Compact;
    AdvancedStands(t, it, it', j, r);
    LeafStocked(t, it);
    LeafTodoStep(leaf, it.filter, it.index, it.index);
    LeafTodoStep(leaf, it.filter, it.index + 1, j);
    if j == |leaf.bucket| {
      LeafNext(t, leaf, e);
      NextHolderUnique(t, leaf.path, e, r);
      SameStart(t, it', end, e);
    } else {
      NotOpen(t, leaf, it', end, e);
    }
  }

  lemma NextHolderUnique<T>(t: Htrie<T>, p: Key, e: Node?<T>, f: Node?<T>)
    requires t.Wf() && NextHolder(t, p, e) && NextHolder(t, p, f)
    ensures e == f
  {
    if e != null && f != null {
      if e.path == f.path {
        t.Unique(e, f);
      } else {
        BeforeAsymmetric(e.path, f.path);
      }
    }
  }

  /** Within the leaf, an iterator is not yet at the end of the range. */
  lemma NotOpen<T>(t: Htrie<T>, leaf: Node<T>, it: Iterator<T>, end: Iterator<T>, e: Node?<T>)
    requires FirstRightOf(t, leaf.path, e) && Opens(t, end, e) && !it.readValue && it.hashNode == leaf
    ensures !Same(it, end)
  {
    if e != null {
      RightIrreflexive(leaf.path);
    }
  }

  lemma LeafRangeStart<T>(t: Htrie<T>, prefix: Key, begin: Iterator<T>, end: Iterator<T>,
                          leaf: Node<T>, j: nat, e: Node?<T>)
    requires t.Valid() && RangeInLeaf(t, prefix, begin, end, leaf, j, e)
    ensures OnWay(t, leaf, begin, end, e, WithPrefix(t.contents, prefix))
  {
    var rest := prefix[|leaf.path|..];
    LeafTodoStart(t, leaf, prefix);
    assert Htrie.Known(leaf, t.contents, t.owner);
    LeafTodoStep(leaf, rest, 0, j);
    if e != null {
      StandingAfter(t, e, end);
    }
    if j < |leaf.bucket| {
      NotOpen(t, leaf, begin, end, e);
    } else {
      SameStands(t, begin, end);
    }
  }

  lemma SameStands<T>(t: Htrie<T>, it: Iterator<T>, end: Iterator<T>)
    requires Same(it, end) && (IsEnd(end) || Standing(t, end))
    ensures IsEnd(it) || Standing(t, it)
  {
  }

  lemma RangeStart<T>(t: Htrie<T>, prefix: Key, begin: Iterator<T>, end: Iterator<T>,
                      n: Node?<T>, r: Node?<T>, j: nat, e: Node?<T>) returns (leaf: Node?<T>)
    requires t.Valid() && RangeOf(t, prefix, begin, end, n, r, j, e)
    ensures OnWay(t, leaf, begin, end, e, WithPrefix(t.contents, prefix))
  {
    hide Htrie.Linked, Htrie.Filled, Htrie.Compact, RangeInLeaf, OnWay, WithPrefix, Remaining, Standing, Opens;
    leaf := null;
    if n == null {
      OnWayNowhere(t, begin, end);
    } else if n in t.repr && n.path == prefix && r != null && RangeAtNode(t, prefix, begin, end, r, e) {
      NodeRangeStart(t, n, begin, end, r, e);
      OnWayFromNode(t, begin, end, e);
    } else {
      leaf := n;
      LeafRangeStart(t, prefix, begin, end, n, j, e);
    }
  }

  /** for (it = range.first; it != range.second; ++it): each stored key with the prefix, once. */
  method CollectPrefix<T>(t: Htrie<T>, prefix: Key) returns (keys: seq<Key>)
    requires t.Valid()
    ensures Distinct(keys)
    ensures forall k :: k in keys <==> k in t.contents && prefix <= k
  {
    hide Htrie.Linked, Htrie.Filled, Htrie.Compact, RangeAtNode, RangeInLeaf, OnWay, Advanced, Standing, ElementKey,
      Same, Remaining;
    ghost var n, r, j, e;
    var it, end;
    it, end, n, r, j, e := EqualPrefixRange(t, prefix);
    ghost var leaf := RangeStart(t, prefix, it, end, n, r, j, e);
    ghost var todo := WithPrefix(t.contents, prefix);
    keys := [];
    while !Same(it, end)
      invariant OnWay(t, leaf, it, end, e, todo)
      invariant Distinct(keys) && forall k :: k in keys ==> k !in todo
      invariant forall k :: k in keys || k in todo <==> k in WithPrefix(t.contents, prefix)
      decreases todo
    {
      OnWayStands(t, leaf, it, end, e, todo);
      var k := GetKey(t, it);
      var it', j', r' := Increment(t, it);
      OnWayStep(t, leaf, it, it', j', r', end, e, todo);
      keys, it, todo := keys + [k], it', todo - {k};
    }
    OnWayDone(t, leaf, it, end, e, todo);
  }

  lemma OnWayNowhere<T>(t: Htrie<T>, it: Iterator<T>, end: Iterator<T>)
    requires IsEnd(it) && it.filter == [] && IsEnd(end)
    ensures OnWay(t, null, it, end, null, {})
  {
    NothingAhead(t, it);
    NothingAhead(t, end);
  }

  lemma OnWayFromNode<T>(t: Htrie<T>, it: Iterator<T>, end: Iterator<T>, e: Node?<T>)
    requires Standing(t, it) && Opens(t, end, e) && it.filter == [] && Remaining(t, end) <= Remaining(t, it)
    ensures OnWay(t, null, it, end, e, Remaining(t, it) - Remaining(t, end))
  {
  }
}
