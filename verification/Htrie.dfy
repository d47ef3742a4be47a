/**
 The HAT-trie itself (inc/tsl/htrie_hash.h): lookup, insertion with bursting, and the removal of
 empty nodes.

 `repr` holds the nodes of the tree and every node knows its `path`, so the invariant speaks of one
 node and its neighbours at a time. `contents` is the finite map the trie stands for, and `owner`
 says which node holds a key.
 */
module Htrie {
  import opened HtrieNode

  /** Where an element is stored; the position an iterator denotes. */
  datatype Position<T> = End | AtValue(node: Node<T>) | AtEntry(node: Node<T>, index: nat)

  class Htrie<T> {
    // m_root, m_nb_elements, m_burst_threshold
    var root: Node?<T>
    var nbElements: nat
    var burstThreshold: nat

    ghost var repr: set<Node<T>>
    ghost var contents: map<Key, T>
    ghost var owner: map<Key, Node<T>>

    /** Parent pointers, child slots and paths agree, and all nodes hang below the root. */
    static ghost predicate Linked(root: Node?<T>, repr: set<Node<T>>)
      reads repr`parent, repr`childOf, repr`children, repr`path
    {
      && (root == null ==> repr == {})
      && (root != null ==> root in repr && root.parent == null && root.path == [])
      && (forall n :: n in repr ==> n.Slotted())
      && (forall n {:trigger n.parent} :: n in repr && n.parent == null ==> n == root)
      && (forall n {:trigger n.parent} :: n in repr && n.parent != null ==>
            && n.parent in repr && n.parent.isTrie
            && n.path == n.parent.path + [n.childOf] && n.parent.children[n.childOf] == n)
      && (forall n, c: Byte :: n in repr && n.isTrie && n.children[c] != null ==>
            && n.children[c] in repr && n.children[c].parent == n && n.children[c].childOf == c)
    }

    static ghost predicate Stores(n: Node<T>, k: Key)
      reads n`path, n`value, n`bucket
    {
      if n.isTrie then n.path == k && n.value.Some?
      else n.path <= k && HasKey(n.bucket, k[|n.path|..])
    }

    /** All that `n` holds is in the maps, and belongs to `n`. */
    static ghost predicate Known(n: Node<T>, contents: map<Key, T>, owner: map<Key, Node<T>>)
      reads n`path, n`value, n`bucket
    {
      && n.Stocked()
      && (n.value.Some? ==>
            n.path in contents && n.path in owner && contents[n.path] == n.value.value && owner[n.path] == n)
      && (forall i :: 0 <= i < |n.bucket| ==>
            var k := n.path + n.bucket[i].0;
            k in contents && k in owner && contents[k] == n.bucket[i].1 && owner[k] == n)
    }

    /** The nodes hold exactly the pairs of `contents`, each in the node `owner` names. */
    static ghost predicate Filled(repr: set<Node<T>>, contents: map<Key, T>, owner: map<Key, Node<T>>)
      reads repr`path, repr`value, repr`bucket
    {
      && contents.Keys == owner.Keys
      && (forall n :: n in repr ==> Known(n, contents, owner))
      && (forall k :: k in owner ==> owner[k] in repr && Stores(owner[k], k))
    }

    /** A node still knows its pairs after a change to the maps that leaves its keys alone. */
    static lemma KnownFrame(n: Node<T>, contents: map<Key, T>, owner: map<Key, Node<T>>,
                            contents': map<Key, T>, owner': map<Key, Node<T>>)
      requires Known(n, contents, owner)
      requires forall k :: k in owner && owner[k] == n && k in contents ==>
        k in owner' && owner'[k] == n && k in contents' && contents'[k] == contents[k]
      ensures Known(n, contents', owner')
    {
    }

    ghost predicate Wf()
      reads this, repr
    {
      Linked(root, repr) && Filled(repr, contents, owner) && nbElements == |contents|
    }

    /** No empty node, apart from `spare`. */
    static ghost predicate Compact(repr: set<Node<T>>, spare: Node?<T>)
      reads repr`value, repr`bucket, repr`children
    {
      forall n :: n in repr && n != spare ==> !n.Hollow()
    }

    /** No leaf holds more than `limit` pairs. */
    static ghost predicate LeavesWithin(repr: set<Node<T>>, limit: nat)
      reads repr`bucket
    {
      forall n :: n in repr ==> |n.bucket| <= limit
    }

    /** The leaves on the way of a key that hold as many pairs as a leaf may. */
    static ghost function FullOn(repr: set<Node<T>>, k: Key, threshold: nat): set<Node<T>>
      reads repr`path, repr`bucket
    {
      set n | n in repr && !n.isTrie && n.path <= k && |n.bucket| >= threshold
    }

    ghost predicate Valid()
      reads this, repr
    {
      Wf() && Compact(repr, null)
    }

    /** What every public operation keeps, as long as the threshold is not lowered. */
    ghost predicate Invariant()
      reads this, repr
    {
      Valid() && MIN_BURST_THRESHOLD <= burstThreshold && LeavesWithin(repr, burstThreshold)
    }

    /** `p` is the position of key `k`. */
    ghost predicate Holds(p: Position<T>, k: Key)
      reads this, repr
    {
      match p
      case End => false
      case AtValue(n) => n in repr && n.isTrie && n.value.Some? && k == n.path
      case AtEntry(n, i) => n in repr && i < |n.bucket| && k == n.path + n.bucket[i].0
    }

    constructor (threshold: nat)
      ensures Invariant() && contents == map[] && root == null && fresh(repr)
      ensures burstThreshold >= threshold
      ensures burstThreshold == MIN_BURST_THRESHOLD || burstThreshold == threshold
    {
      root := null;
      nbElements := 0;
      burstThreshold := if threshold < MIN_BURST_THRESHOLD then MIN_BURST_THRESHOLD else threshold;
      repr, contents, owner := {}, map[], map[];
    }

    /** Every prefix of a node's path leads to a node. */
    lemma Ancestor(n: Node<T>, i: nat) returns (a: Node<T>)
      requires Linked(root, repr) && n in repr && i <= |n.path|
      ensures a in repr && a.path == n.path[..i]
      ensures i < |n.path| ==> a.isTrie && a.children[n.path[i]] != null
      ensures i == |n.path| ==> a == n
      decreases |n.path|
    {
      if i == |n.path| {
        a := n;
      } else if i == |n.path| - 1 {
        a := n.parent;
      } else {
        a := Ancestor(n.parent, i);
      }
    }

    /** A path leads to one node only. */
    lemma Unique(n: Node<T>, m: Node<T>)
      requires Linked(root, repr) && n in repr && m in repr && n.path == m.path
      ensures n == m
      decreases |n.path|
    {
      assert n.parent == null <==> n.path == [];
      assert m.parent == null <==> m.path == [];
      if n.path != [] {
        assert n.parent.path == n.path[..|n.path| - 1] == m.parent.path;
        Unique(n.parent, m.parent);
      }
    }

    /** Standing at the node for k[..i]: if k is stored, its owner is here or further down k. */
    lemma Descend(n: Node<T>, k: Key, i: nat)
      requires Linked(root, repr) && Filled(repr, contents, owner) && n in repr && i <= |k| && n.path == k[..i]
      ensures k in contents && (!n.isTrie || i == |k|) ==> owner[k] == n
      ensures k in contents && n.isTrie && i < |k| ==> n.children[k[i]] != null
    {
      if k !in contents {
        return;
      }
      var o := owner[k];
      assert o.path <= k;
      if |o.path| < i {
        var a := Ancestor(n, |o.path|);
        assert a.path == o.path;
        Unique(a, o);
      } else {
        var a := Ancestor(o, i);
        assert a.path == n.path;
        Unique(a, n);
        if i < |o.path| {
          assert o.path[i] == k[i];
        } else {
          assert o == n;
        }
      }
    }

    /** find_in_hash_node() */
    method FindInHashNode(hnode: Node<T>, suffix: Key, ghost k: Key) returns (p: Position<T>)
      requires Wf() && hnode in repr && !hnode.isTrie && k == hnode.path + suffix
      ensures if k in contents then Holds(p, k) && p.AtEntry? else p == End
    {
      var i := FindInBucket(hnode.bucket, suffix);
      assert k[..|hnode.path|] == hnode.path && k[|hnode.path|..] == suffix;
      Descend(hnode, k, |hnode.path|);
      if i < |hnode.bucket| {
        p := AtEntry(hnode, i);
      } else {
        p := End;
      }
    }

    /**
     The loop that find_impl(), insert_impl(), equal_prefix_range_impl() and erase_prefix() begin with:
     down from `start` along `key`, until the key is used up, a hash node is met or a child is missing.
     */
    method Walk(start: Node<T>, key: Key) returns (current: Node<T>, i: nat)
      requires Linked(root, repr) && start in repr
      ensures current in repr && i <= |key| && current.path == start.path + key[..i]
      ensures i == |key| || !current.isTrie || current.children[key[i]] == null
      ensures i == 0 ==> current == start
      ensures i > 0 ==> start.isTrie
      ensures current.Slotted()
    {
      current, i := start, 0;
      while i < |key| && current.isTrie && current.children[key[i]] != null
        invariant 0 <= i <= |key|
        invariant current in repr && current.path == start.path + key[..i]
        invariant i == 0 ==> current == start
        invariant i > 0 ==> start.isTrie
      {
        assert key[..i + 1] == key[..i] + [key[i]];
        current := current.children[key[i]];
        i := i + 1;
      }
    }

    /** find() / find_impl() */
    method Find(key: Key) returns (p: Position<T>)
      requires Wf()
      ensures if key in contents then Holds(p, key) else p == End
    {
      if root == null {
        return End;
      }
      var current, i := Walk(root, key);
      assert root.path == [] && current.path == key[..i];
      Descend(current, key, i);
      if current.isTrie {
        assert i == |key| ==> current.path == key;
        p := if i == |key| && current.value.Some? then AtValue(current) else End;
      } else {
        assert key == key[..i] + key[i..];
        p := FindInHashNode(current, key[i..], key);
      }
    }

    /** Where the pair (k, v) of a burst bucket went under `t`. */
    static ghost predicate Placed(t: Node<T>, k: Key, v: T)
      requires |t.children| == ALPHABET_SIZE
      reads t, t.children
    {
      if k == [] then t.value == Some(v)
      else t.children[k[0]] != null && (k[1..], v) in t.children[k[0]].bucket
    }

    /** The new trie node `t` and its new leaves `kids` are linked to each other. */
    static ghost predicate SpreadLinks(t: Node<T>, kids: set<Node<T>>, path: Key)
      reads t`parent, t`children, t`path, kids`parent, kids`childOf, kids`children, kids`path
    {
      && t.isTrie && t.Slotted() && t.path == path && t.parent == null && t !in kids
      && (forall n :: n in kids ==> !n.isTrie && n.Slotted())
      && (forall n :: n in kids ==>
            n.parent == t && n.path == path + [n.childOf] && t.children[n.childOf] == n)
      && (forall c: Byte :: t.children[c] != null ==> t.children[c] in kids && t.children[c].childOf == c)
    }

    /**
     The pairs `b` of a leaf at `path`, spread over the new trie node `t` and its new leaves `kids`,
     of which only `spare` may still be empty.
     */
    static ghost predicate Spread(t: Node<T>, kids: set<Node<T>>, b: Bucket<T>, path: Key, spare: Node?<T>)
      reads t, t.children, kids
    {
      && SpreadLinks(t, kids, path)
      && t.Stocked()
      && (forall n :: n in kids ==> n.Stocked() && |n.bucket| <= |b|)
      && (forall n :: n in kids && n != spare ==> n.bucket != [])
      && (forall e :: e in b ==> Placed(t, e.0, e.1))
      && (t.value.Some? ==> ([], t.value.value) in b)
      && (forall n, e :: n in kids && e in n.bucket ==> ([n.childOf] + e.0, e.1) in b)
    }

    /** set_child() with a new, empty leaf. */
    static method AddHashNode(t: Node<T>, c: Byte, ghost kids: set<Node<T>>, ghost path: Key) returns (leaf: Node<T>)
      requires SpreadLinks(t, kids, path) && t.children[c] == null
      modifies t`children
      ensures fresh(leaf) && leaf.childOf == c && leaf.Stocked() && leaf.bucket == []
      ensures SpreadLinks(t, kids + {leaf}, path) && t.children == old(t.children)[c := leaf]
    {
      leaf := new Node.Hash([], t.path + [c]);
      t.SetChild(c, leaf);
    }

    /** get_hash_node_for_char(): the leaf for `c`, made on demand. */
    static method HashNodeForChar(t: Node<T>, c: Byte, ghost kids: set<Node<T>>, ghost b: Bucket<T>, ghost path: Key)
      returns (leaf: Node<T>, ghost kids': set<Node<T>>)
      requires Spread(t, kids, b, path, null)
      modifies t`children
      ensures Spread(t, kids', b, path, leaf)
      ensures leaf in kids' && leaf.childOf == c && fresh(kids' - kids)
    {
      hide SpreadLinks;
      LinkedChild(t, kids, path, c);
      if t.children[c] == null {
        leaf := AddHashNode(t, c, kids, path);
        kids' := kids + {leaf};
      } else {
        leaf, kids' := t.children[c], kids;
      }
      SpreadRoot(t, kids', path);
      forall e | e in b
        ensures Placed(t, e.0, e.1)
      {
        assert old(Placed(t, e.0, e.1));
      }
    }

    /** insert_ks() of a suffix that is new to the leaf. */
    static method InsertInLeaf(leaf: Node<T>, k: Key, v: T)
      requires DistinctKeys(leaf.bucket) && !HasKey(leaf.bucket, k)
      modifies leaf`bucket
      ensures DistinctKeys(leaf.bucket) && |leaf.bucket| == |old(leaf.bucket)| + 1
      ensures forall e :: e in leaf.bucket <==> e in old(leaf.bucket) || e == (k, v)
    {
      var bucket, i, inserted := Emplace(leaf.bucket, k, v);
      assert leaf.bucket == leaf.bucket[..i] + leaf.bucket[i..];
      leaf.bucket := bucket;
    }

    static lemma SpreadRoot(t: Node<T>, kids: set<Node<T>>, path: Key)
      requires SpreadLinks(t, kids, path)
      ensures |t.children| == ALPHABET_SIZE && t.isTrie && t.path == path && t !in kids
      ensures forall n :: n in kids ==> !n.isTrie
    {
    }

    static lemma SpreadIsLinked(t: Node<T>, kids: set<Node<T>>, b: Bucket<T>, path: Key, spare: Node?<T>)
      requires Spread(t, kids, b, path, spare)
      ensures SpreadLinks(t, kids, path)
    {
    }

    static lemma LinkedSlot(t: Node<T>, kids: set<Node<T>>, path: Key, leaf: Node<T>)
      requires SpreadLinks(t, kids, path) && leaf in kids
      ensures |t.children| == ALPHABET_SIZE && t.children[leaf.childOf] == leaf && t != leaf && !leaf.isTrie && t.isTrie
      ensures forall c: Byte :: t.children[c] == leaf ==> c == leaf.childOf
    {
    }

    /** One round of the loop of burst(), for a pair that goes into the leaf of its first character. */
    static method BurstPair(t: Node<T>, leaf: Node<T>, k: Key, v: T,
                            ghost kids: set<Node<T>>, ghost b: Bucket<T>, ghost path: Key)
      requires k != [] && !HasKey(b, k)
      requires Spread(t, kids, b, path, leaf) && leaf in kids && leaf.childOf == k[0]
      modifies leaf`bucket
      ensures Spread(t, kids, b + [(k, v)], path, null)
    {
      hide SpreadLinks;
      LinkedSlot(t, kids, path, leaf);
      assert [k[0]] + k[1..] == k;
      forall j | 0 <= j < |leaf.bucket|
        ensures leaf.bucket[j].0 != k[1..]
      {
        assert leaf.bucket[j] in leaf.bucket;
        assert ([leaf.childOf] + leaf.bucket[j].0, leaf.bucket[j].1) in b;
      }
      InsertInLeaf(leaf, k[1..], v);
      forall e | e in b
        ensures Placed(t, e.0, e.1)
      {
        assert old(Placed(t, e.0, e.1));
      }
    }

    static lemma NothingSpread(t: Node<T>, path: Key)
      requires t.isTrie && t.Slotted() && t.path == path && t.parent == null && t.value == None && t.bucket == []
      requires forall c :: 0 <= c < ALPHABET_SIZE ==> t.children[c] == null
      ensures Spread(t, {}, [], path, null)
    {
    }

    static lemma NotBefore(b: Bucket<T>, j: nat)
      requires DistinctKeys(b) && j < |b|
      ensures !HasKey(b[..j], b[j].0)
    {
    }

    /** burst(): turns a full leaf into a trie node over smaller leaves. */
    static method Burst(h: Node<T>) returns (t: Node<T>, ghost kids: set<Node<T>>)
      requires !h.isTrie && h.Stocked()
      ensures fresh(t) && fresh(kids)
      ensures Spread(t, kids, h.bucket, h.path, null)
    {
      hide Spread, DistinctKeys;
      t := new Node.Trie(h.path);
      kids := {};
      NothingSpread(t, h.path);
      var j := 0;
      while j < |h.bucket|
        invariant 0 <= j <= |h.bucket|
        invariant fresh(t) && fresh(kids)
        invariant Spread(t, kids, h.bucket[..j], h.path, null)
      {
        var (k, v) := h.bucket[j];
        assert h.bucket[..j + 1] == h.bucket[..j] + [(k, v)];
        NotBefore(h.bucket, j);
        if k == [] {
          SetValue(t, v, kids, h.bucket[..j], h.path);
        } else {
          var leaf;
          leaf, kids := HashNodeForChar(t, k[0], kids, h.bucket[..j], h.path);
          BurstPair(t, leaf, k, v, kids, h.bucket[..j], h.path);
        }
        j := j + 1;
      }
      assert h.bucket[..j] == h.bucket;
    }

    /** One round of the loop of burst(), for the empty suffix. */
    static method SetValue(t: Node<T>, v: T, ghost kids: set<Node<T>>, ghost b: Bucket<T>, ghost path: Key)
      requires Spread(t, kids, b, path, null) && !HasKey(b, [])
      modifies t`value
      ensures Spread(t, kids, b + [([], v)], path, null)
    {
      hide SpreadLinks;
      SpreadRoot(t, kids, path);
      t.value := Some(v);
      SpreadRoot(t, kids, path);
    }

    /** The owner of `k` once the leaf `h` is spread over `t`. */
    static ghost function OwnerAfter(owner: map<Key, Node<T>>, h: Node<T>, t: Node<T>, k: Key): Node?<T>
      requires |t.children| == ALPHABET_SIZE && k in owner
      reads h`path, t`children
    {
      if owner[k] != h then owner[k]
      else if |k| <= |h.path| then t
      else t.children[k[|h.path|]]
    }

    /** A key of a leaf that is spread over `t` is stored by its new owner. */
    static lemma SpreadStores(contents: map<Key, T>, owner: map<Key, Node<T>>,
                              h: Node<T>, t: Node<T>, kids: set<Node<T>>, k: Key)
      requires Known(h, contents, owner) && !h.isTrie && Spread(t, kids, h.bucket, h.path, null)
      requires k in owner && owner[k] == h && Stores(h, k)
      ensures OwnerAfter(owner, h, t, k) != null
      ensures OwnerAfter(owner, h, t, k) == t || OwnerAfter(owner, h, t, k) in kids
      ensures Stores(OwnerAfter(owner, h, t, k), k)
    {
      hide Known, SpreadLinks;
      SpreadRoot(t, kids, h.path);
      var p := |h.path|;
      var i :| 0 <= i < |h.bucket| && h.bucket[i].0 == k[p..];
      var e := h.bucket[i];
      assert e in h.bucket && Placed(t, e.0, e.1);
      if |k| > p {
        LinkedChild(t, kids, h.path, k[p]);
        assert k[p..][1..] == k[p + 1..];
        assert h.path + [k[p]] == k[..p + 1];
        assert (k[p + 1..], e.1) in t.children[k[p]].bucket;
      }
    }

    static lemma LinkedChild(t: Node<T>, kids: set<Node<T>>, path: Key, c: Byte)
      requires SpreadLinks(t, kids, path)
      ensures |t.children| == ALPHABET_SIZE
      ensures t.children[c] != null ==>
        t.children[c] in kids && t.children[c].path == path + [c] && t.children[c].childOf == c && !t.children[c].isTrie
    {
    }

    /** A new leaf holds pairs of the old one. */
    static lemma SpreadKnown(contents: map<Key, T>, owner: map<Key, Node<T>>,
                             h: Node<T>, t: Node<T>, kids: set<Node<T>>, owner': map<Key, Node<T>>, n: Node<T>)
      requires Known(h, contents, owner) && !h.isTrie && Spread(t, kids, h.bucket, h.path, null)
      requires owner'.Keys == owner.Keys && forall k :: k in owner ==> owner'[k] == OwnerAfter(owner, h, t, k)
      requires n in kids
      ensures Known(n, contents, owner')
    {
      hide Placed;
      forall i | 0 <= i < |n.bucket|
        ensures var k := n.path + n.bucket[i].0;
          k in contents && k in owner' && contents[k] == n.bucket[i].1 && owner'[k] == n
      {
        var e := n.bucket[i];
        assert e in n.bucket;
        var j :| 0 <= j < |h.bucket| && h.bucket[j] == ([n.childOf] + e.0, e.1);
        Regroup(h.path, n.childOf, e.0);
        assert h.path + h.bucket[j].0 in owner;
      }
    }

    static lemma Regroup(p: Key, c: Byte, s: Key)
      ensures p + ([c] + s) == (p + [c]) + s
    {
    }

    /** The new trie node holds the pair of the old leaf with the empty suffix. */
    static lemma SpreadKnownTop(contents: map<Key, T>, owner: map<Key, Node<T>>,
                                h: Node<T>, t: Node<T>, kids: set<Node<T>>, owner': map<Key, Node<T>>)
      requires Known(h, contents, owner) && !h.isTrie && Spread(t, kids, h.bucket, h.path, null)
      requires owner'.Keys == owner.Keys && forall k :: k in owner ==> owner'[k] == OwnerAfter(owner, h, t, k)
      ensures Known(t, contents, owner')
    {
      hide Placed;
      if t.value.Some? {
        var j :| 0 <= j < |h.bucket| && h.bucket[j] == ([], t.value.value);
        assert h.path + h.bucket[j].0 == t.path;
      }
    }

    static lemma SpreadFilled(repr: set<Node<T>>, contents: map<Key, T>, owner: map<Key, Node<T>>,
                              h: Node<T>, t: Node<T>, kids: set<Node<T>>, owner': map<Key, Node<T>>)
      requires Filled(repr, contents, owner) && h in repr && !h.isTrie && Spread(t, kids, h.bucket, h.path, null)
      requires owner'.Keys == owner.Keys && forall k :: k in owner ==> owner'[k] == OwnerAfter(owner, h, t, k)
      ensures Filled(repr - {h} + {t} + kids, contents, owner')
    {
      hide Stores, Known, Placed, Compact;
      SpreadKnownTop(contents, owner, h, t, kids, owner');
      forall k | k in owner && owner[k] == h
        ensures (owner'[k] == t || owner'[k] in kids) && Stores(owner'[k], k)
      {
        SpreadStores(contents, owner, h, t, kids, k);
      }
      forall n | n in kids
        ensures Known(n, contents, owner')
      {
        SpreadKnown(contents, owner, h, t, kids, owner', n);
      }
      forall n | n in repr && n != h
        ensures Known(n, contents, owner')
      {
        KnownFrame(n, contents, owner, contents, owner');
      }
    }

    lemma LeafFacts(h: Node<T>, limit: nat)
      requires Linked(root, repr) && Filled(repr, contents, owner) && Compact(repr, null) && LeavesWithin(repr, limit)
      requires h in repr && !h.isTrie
      ensures Known(h, contents, owner) && h.Stocked() && h.bucket != [] && |h.bucket| <= limit
      ensures forall k :: k in owner && owner[k] == h ==> Stores(h, k)
    {
      assert h.Slotted() && !h.Hollow();
    }

    /** The new nodes of a burst are not empty, and no fuller than the old leaf. */
    lemma CompactAfterBurst(h: Node<T>, t: Node<T>, kids: set<Node<T>>, limit: nat)
      requires Compact(repr, null) && LeavesWithin(repr, limit)
      requires h in repr && h.bucket != [] && Spread(t, kids, h.bucket, h.path, null)
      ensures Compact(repr - {h} + {t} + kids, null) && LeavesWithin(repr - {h} + {t} + kids, limit)
      ensures t.isTrie && t.path == h.path && |t.children| == ALPHABET_SIZE
    {
      assert h.bucket[0] in h.bucket;
    }

    /** Bursts `h` and works out who owns its keys afterwards; the tree is not touched yet. */
    method PrepareBurst(h: Node<T>, ghost limit: nat)
      returns (t: Node<T>, ghost kids: set<Node<T>>, ghost owner': map<Key, Node<T>>)
      requires Filled(repr, contents, owner) && Compact(repr, null) && LeavesWithin(repr, limit)
      requires Linked(root, repr) && h in repr && !h.isTrie
      ensures fresh(t) && fresh(kids) && t.isTrie && t.path == h.path
      ensures Spread(t, kids, h.bucket, h.path, null)
      ensures Filled(repr - {h} + {t} + kids, contents, owner')
      ensures Compact(repr - {h} + {t} + kids, null) && LeavesWithin(repr - {h} + {t} + kids, limit)
    {
      hide Linked, Filled, Known, Stores, Placed, Spread, Compact, LeavesWithin;
      LeafFacts(h, limit);
      t, kids := Burst(h);
      CompactAfterBurst(h, t, kids, limit);
      forall k | k in owner && owner[k] == h
        ensures OwnerAfter(owner, h, t, k) != null
      {
        SpreadStores(contents, owner, h, t, kids, k);
      }
      owner' := map k | k in owner :: OwnerAfter(owner, h, t, k) as Node<T>;
      SpreadFilled(repr, contents, owner, h, t, kids, owner');
    }

    /** The burst leaf was the whole tree. */
    static lemma SpreadAlone(root: Node?<T>, repr: set<Node<T>>, h: Node<T>, t: Node<T>, kids: set<Node<T>>)
      requires Linked(root, repr) && h in repr && h.parent == null && !h.isTrie && SpreadLinks(t, kids, h.path)
      requires t !in repr && kids !! repr
      ensures Linked(t, repr - {h} + {t} + kids)
    {
    }

    /** set_child() in place of a leaf. */
    static method HangInParent(ghost root: Node?<T>, ghost repr: set<Node<T>>, h: Node<T>, t: Node<T>, ghost kids: set<Node<T>>)
      requires Linked(root, repr) && h in repr && !h.isTrie && h.parent != null && SpreadLinks(t, kids, h.path)
      requires t !in repr && kids !! repr
      modifies h.parent`children, t`parent, t`childOf
      ensures Linked(root, repr - {h} + {t} + kids)
      ensures |old(h.parent.children)| == ALPHABET_SIZE && h.parent.children == old(h.parent.children)[h.childOf := t]
    {
      assert h.parent.Slotted();
      h.parent.SetChild(h.childOf, t);
    }

    /** insert_in_hash_node(), lines 1391-1404: hangs the burst leaf's trie node in its place. */
    method ReplaceLeaf(h: Node<T>, t: Node<T>, ghost kids: set<Node<T>>, ghost repr': set<Node<T>>)
      requires Linked(root, repr) && h in repr && !h.isTrie && SpreadLinks(t, kids, h.path)
      requires t !in repr && kids !! repr && repr' == repr - {h} + {t} + kids
      requires Compact(repr', null)
      modifies `root, `repr, repr`children, t`parent, t`childOf
      ensures repr == repr' && Linked(root, repr) && Compact(repr, null)
      ensures t.path == old(t.path)
    {
      hide Linked, SpreadLinks;
      ParentThere(root, repr, h);
      if h.parent == null {
        SpreadAlone(root, repr, h, t, kids);
        root := t;
      } else {
        HangInParent(root, repr, h, t, kids);
        assert h.parent.children[h.childOf] != null;
      }
      repr := repr';
    }

    static lemma ParentThere(root: Node?<T>, repr: set<Node<T>>, h: Node<T>)
      requires Linked(root, repr) && h in repr
      ensures h.parent != null ==> h.parent in repr
    {
    }

    /** insert_in_hash_node(), lines 1389-1405. */
    method BurstInPlace(h: Node<T>, ghost limit: nat) returns (t: Node<T>)
      requires Valid() && LeavesWithin(repr, limit) && h in repr && !h.isTrie
      modifies this`root, this`repr, this`owner, repr
      ensures Valid() && LeavesWithin(repr, limit) && fresh(repr - old(repr))
      ensures contents == old(contents)
      ensures t in repr && t.isTrie && t.path == old(h.path)
      ensures old(repr) - {h} <= repr
      ensures forall n :: n in old(repr) ==> n.bucket == old(n.bucket) && n.path == old(n.path)
    {
      hide Filled, Linked, Compact, LeavesWithin, Spread, SpreadLinks, Placed;
      ghost var kids, owner';
      t, kids, owner' := PrepareBurst(h, limit);
      SpreadIsLinked(t, kids, h.bucket, h.path, null);
      ReplaceLeaf(h, t, kids, repr - {h} + {t} + kids);
      owner := owner';
    }

    /** The maps after `n` took in the new pair (k, v). */
    static lemma FilledAdd(repr: set<Node<T>>, contents: map<Key, T>, owner: map<Key, Node<T>>,
                           n: Node<T>, k: Key, v: T)
      requires contents.Keys == owner.Keys && k !in contents
      requires forall m :: m in repr && m != n ==> Known(m, contents, owner)
      requires Known(n, contents[k := v], owner[k := n]) && Stores(n, k)
      requires forall l :: l in owner ==> owner[l] in repr && Stores(owner[l], l)
      ensures Filled(repr + {n}, contents[k := v], owner[k := n])
    {
      hide Known, Stores;
      forall m | m in repr && m != n
        ensures Known(m, contents[k := v], owner[k := n])
      {
        KnownFrame(m, contents, owner, contents[k := v], owner[k := n]);
      }
    }

    /** What emplace_ks() does to one leaf. */
    method EmplaceInLeaf(h: Node<T>, suffix: Key, v: T, ghost k: Key) returns (i: nat, inserted: bool)
      requires !h.isTrie && Known(h, contents, owner) && contents.Keys == owner.Keys && k == h.path + suffix
      requires k in owner ==> owner[k] == h && Stores(h, k)
      modifies h`bucket
      ensures i < |h.bucket| && k == h.path + h.bucket[i].0
      ensures inserted <==> k !in contents
      ensures !inserted ==> h.bucket == old(h.bucket)
      ensures inserted ==> Known(h, contents[k := v], owner[k := h]) && Stores(h, k)
      ensures |h.bucket| == |old(h.bucket)| + if inserted then 1 else 0
      ensures forall l :: old(Stores(h, l)) ==> Stores(h, l)
    {
      var bucket;
      bucket, i, inserted := Emplace(h.bucket, suffix, v);
      assert k[..|h.path|] == h.path && k[|h.path|..] == suffix;
      ghost var b := h.bucket;
      h.bucket := bucket;
      if inserted {
        assert bucket[i] == (suffix, v);
        forall j | 0 <= j < |b|
          ensures exists j' :: 0 <= j' < |bucket| && bucket[j'] == b[j]
        {
          assert bucket[if j < i then j else j + 1] == b[j];
        }
      }
    }

    /** emplace_ks() on a leaf that has room keeps the leaves small and leaves none empty. */
    method EmplaceWithin(h: Node<T>, suffix: Key, v: T, ghost k: Key, ghost limit: nat)
      returns (i: nat, inserted: bool)
      requires !h.isTrie && Known(h, contents, owner) && contents.Keys == owner.Keys && k == h.path + suffix
      requires k in owner ==> owner[k] == h && Stores(h, k)
      requires Compact(repr, h) && LeavesWithin(repr, limit) && |h.bucket| < limit
      requires Filled(repr, contents, owner) && h in repr
      modifies h`bucket
      ensures Compact(repr, null) && LeavesWithin(repr, limit)
      ensures inserted <==> k !in contents
      ensures i < |h.bucket| && k == h.path + h.bucket[i].0
      ensures if inserted then Filled(repr, contents[k := v], owner[k := h]) else Filled(repr, contents, owner)
    {
      hide Known, Stores;
      i, inserted := EmplaceInLeaf(h, suffix, v, k);
      if inserted {
        FilledAdd(repr, contents, owner, h, k, v);
        assert repr + {h} == repr;
      }
    }

    /** The map after insert(): an existing key keeps its value. */
    static ghost function Inserted(contents: map<Key, T>, k: Key, v: T): map<Key, T> {
      if k in contents then contents else contents[k := v]
    }

    lemma OwnerFacts(n: Node<T>, k: Key)
      requires Linked(root, repr) && Filled(repr, contents, owner) && n in repr && n.path <= k
      requires !n.isTrie || n.path == k
      ensures Known(n, contents, owner) && contents.Keys == owner.Keys
      ensures k in owner ==> owner[k] == n && Stores(n, k)
      ensures forall l :: l in owner ==> owner[l] in repr && Stores(owner[l], l)
      ensures forall m :: m in repr ==> Known(m, contents, owner)
    {
      if k in owner {
        assert n.path == k[..|n.path|];
        Descend(n, k, |n.path|);
      }
    }

    /** The new key `k` is counted, and belongs to `n`. */
    method Note(ghost n: Node<T>, ghost k: Key, ghost v: T, ghost repr': set<Node<T>>)
      requires Linked(root, repr') && Filled(repr', contents[k := v], owner[k := n])
      requires k !in contents && nbElements == |contents|
      modifies `nbElements, `contents, `owner, `repr
      ensures Linked(root, repr) && Filled(repr, contents, owner) && nbElements == |contents|
      ensures repr == repr' && contents == old(contents)[k := v] && owner == old(owner)[k := n]
    {
      hide Linked, Filled;
      contents, owner, repr := contents[k := v], owner[k := n], repr';
      nbElements := nbElements + 1;
    }

    /** insert_in_hash_node(), lines 1409-1416: the leaf is not full. */
    method InsertEntry(h: Node<T>, suffix: Key, v: T, ghost k: Key, ghost limit: nat)
      returns (p: Position<T>, inserted: bool)
      requires Wf() && Compact(repr, h) && LeavesWithin(repr, limit)
      requires h in repr && !h.isTrie && k == h.path + suffix && |h.bucket| < limit
      modifies `nbElements, `contents, `owner, `repr, h`bucket
      ensures Valid() && LeavesWithin(repr, limit) && repr == old(repr)
      ensures contents == Inserted(old(contents), k, v) && (inserted <==> k !in old(contents))
      ensures Holds(p, k)
    {
      hide Linked, Filled, Known, Stores, Compact, LeavesWithin;
      OwnerFacts(h, k);
      var i;
      i, inserted := EmplaceWithin(h, suffix, v, k, limit);
      if inserted {
        Note(h, k, v, repr);
      }
      p := AtEntry(h, i);
    }

    /** insert_impl(), lines 1370-1379, before the count: a value for a trie node that has none. */
    method SetNodeValue(t: Node<T>, v: T)
      requires Filled(repr, contents, owner) && Compact(repr, null)
      requires t in repr && t.isTrie && t.value == None && t.path !in contents
      modifies t`value
      ensures Filled(repr, contents[t.path := v], owner[t.path := t]) && Compact(repr, null)
      ensures t.value == Some(v)
    {
      assert Known(t, contents, owner);
      assert forall l :: l in owner ==> Stores(owner[l], l);
      t.value := Some(v);
      assert Known(t, contents[t.path := v], owner[t.path := t]) && Stores(t, t.path);
      FilledAdd(repr, contents, owner, t, t.path, v);
      assert repr + {t} == repr;
    }

    /** insert_impl(), lines 1370-1379. */
    method InsertValue(t: Node<T>, v: T) returns (p: Position<T>, inserted: bool)
      requires Valid() && t in repr && t.isTrie
      modifies `nbElements, `contents, `owner, `repr, t`value
      ensures Valid() && repr == old(repr)
      ensures contents == Inserted(old(contents), t.path, v) && (inserted <==> t.path !in old(contents))
      ensures Holds(p, t.path)
    {
      hide Linked, Filled, Known, Stores, Compact;
      p := AtValue(t);
      OwnerFacts(t, t.path);
      ValueFacts(t);
      if t.value.Some? {
        return p, false;
      }
      SetNodeValue(t, v);
      Note(t, t.path, v, repr);
      inserted := true;
    }

    lemma ValueFacts(t: Node<T>)
      requires Linked(root, repr) && Filled(repr, contents, owner) && t in repr && t.isTrie
      ensures t.value.Some? <==> t.path in contents
    {
      OwnerFacts(t, t.path);
    }

    static method LinkLeaf(ghost root: Node?<T>, ghost repr: set<Node<T>>, t: Node<T>, c: Byte, suffix: Key, v: T)
      returns (leaf: Node<T>)
      requires Linked(root, repr) && t in repr && t.isTrie && t.children[c] == null
      modifies t`children
      ensures fresh(leaf) && !leaf.isTrie && Linked(root, repr + {leaf})
      ensures |old(t.children)| == ALPHABET_SIZE && t.children == old(t.children)[c := leaf]
      ensures leaf.path == t.path + [c] && leaf.bucket == [(suffix, v)] && leaf.Stocked()
    {
      leaf := new Node.Hash([(suffix, v)], t.path + [c]);
      t.SetChild(c, leaf);
    }

    /** insert_impl(), lines 1350-1358: a new leaf with one pair, under a missing child. */
    method NewLeaf(t: Node<T>, c: Byte, suffix: Key, v: T, ghost limit: nat) returns (leaf: Node<T>)
      requires Linked(root, repr) && Compact(repr, null) && LeavesWithin(repr, limit) && 0 < limit
      requires t in repr && t.isTrie && t.children[c] == null
      modifies t`children
      ensures fresh(leaf) && !leaf.isTrie
      ensures Linked(root, repr + {leaf})
      ensures Compact(repr + {leaf}, null) && LeavesWithin(repr + {leaf}, limit)
      ensures leaf.path == t.path + [c] && leaf.bucket == [(suffix, v)] && leaf.Stocked()
    {
      hide Linked;
      leaf := LinkLeaf(root, repr, t, c, suffix, v);
      assert t.children[c] != null;
    }

    /** The maps after the new leaf's only pair came in. */
    static lemma FilledNewLeaf(repr: set<Node<T>>, contents: map<Key, T>, owner: map<Key, Node<T>>,
                               leaf: Node<T>, k: Key, suffix: Key, v: T)
      requires Filled(repr, contents, owner) && leaf !in repr && k !in contents
      requires !leaf.isTrie && leaf.Stocked() && leaf.bucket == [(suffix, v)] && k == leaf.path + suffix
      ensures Filled(repr + {leaf}, contents[k := v], owner[k := leaf])
    {
      assert k[..|leaf.path|] == leaf.path && k[|leaf.path|..] == suffix;
      assert leaf.bucket[0].0 == suffix;
      FilledAdd(repr, contents, owner, leaf, k, v);
    }

    /** insert_impl(), lines 1350-1363: the child slot for the next character is free. */
    method InsertLeaf(t: Node<T>, c: Byte, suffix: Key, v: T, ghost k: Key, ghost limit: nat)
      returns (p: Position<T>, inserted: bool)
      requires Valid() && LeavesWithin(repr, limit) && 0 < limit
      requires t in repr && t.isTrie && t.children[c] == null && k == t.path + [c] + suffix && k !in contents
      modifies `nbElements, `contents, `owner, `repr, t`children
      ensures Valid() && LeavesWithin(repr, limit) && fresh(repr - old(repr)) && old(repr) <= repr
      ensures contents == Inserted(old(contents), k, v) && inserted
      ensures Holds(p, k)
    {
      hide Linked, Filled, Known, Stores, Compact, LeavesWithin;
      var leaf := NewLeaf(t, c, suffix, v, limit);
      FilledNewLeaf(repr, contents, owner, leaf, k, suffix, v);
      Note(leaf, k, v, repr + {leaf});
      p, inserted := AtEntry(leaf, 0), true;
    }

    /** insert_impl() */
    method InsertImpl(start: Node<T>, key: Key, v: T, ghost k: Key, ghost limit: nat)
      returns (p: Position<T>, inserted: bool)
      requires Wf() && Compact(repr, if start.isTrie then null else start) && LeavesWithin(repr, limit)
      requires start in repr && k == start.path + key && MIN_BURST_THRESHOLD <= burstThreshold <= limit
      modifies `root, `nbElements, `contents, `owner, `repr, repr
      ensures Valid() && LeavesWithin(repr, limit) && fresh(repr - old(repr))
      ensures contents == Inserted(old(contents), k, v) && (inserted <==> k !in old(contents))
      ensures Holds(p, k)
      ensures !start.isTrie && |old(start.bucket)| < burstThreshold ==> root == old(root)
      ensures old(repr) - old(FullOn(repr, k, burstThreshold)) <= repr
      decreases |key|, if start.isTrie then 0 else 2
    {
      hide Linked, Filled, Known, Stores, Compact, LeavesWithin, Valid, Wf, Holds, Inserted, FullOn;
      WfParts();
      var current, i := Walk(start, key);
      assert key == key[..i] + key[i..];
      assert k == current.path + key[i..];
      StartFacts(start, current);
      if !current.isTrie {
        p, inserted := InsertInHashNode(current, key[i..], v, k, limit);
      } else {
        p, inserted := InsertInTrieNode(current, key[i..], v, k, limit);
      }
    }

    /** insert_impl(), lines 1350-1379: the way ends at a trie node, for want of a child or at the end of the key. */
    method InsertInTrieNode(current: Node<T>, rest: Key, v: T, ghost k: Key, ghost limit: nat)
      returns (p: Position<T>, inserted: bool)
      requires Valid() && LeavesWithin(repr, limit) && 0 < limit
      requires current in repr && current.isTrie && current.Slotted() && k == current.path + rest
      requires rest != [] ==> current.children[rest[0]] == null
      modifies `nbElements, `contents, `owner, `repr, current`children, current`value
      ensures Valid() && LeavesWithin(repr, limit) && fresh(repr - old(repr)) && old(repr) <= repr
      ensures contents == Inserted(old(contents), k, v) && (inserted <==> k !in old(contents))
      ensures Holds(p, k)
    {
      hide Linked, Filled, Known, Stores, Compact, LeavesWithin, Holds, Inserted;
      if rest != [] {
        assert rest == [rest[0]] + rest[1..];
        MissingChild(current, k, rest[0]);
        p, inserted := InsertLeaf(current, rest[0], rest[1..], v, k, limit);
      } else {
        assert k == current.path;
        p, inserted := InsertValue(current, v);
      }
    }

    lemma WfParts()
      requires Wf()
      ensures Linked(root, repr) && Filled(repr, contents, owner) && nbElements == |contents|
    {
    }

    /** Only a leaf that the insertion starts from can be empty. */
    lemma StartFacts(start: Node<T>, current: Node<T>)
      requires Wf() && Compact(repr, if start.isTrie then null else start) && (start.isTrie || start == current)
      ensures if current.isTrie then Valid() else Compact(repr, current)
    {
    }

    lemma MissingChild(t: Node<T>, k: Key, c: Byte)
      requires Linked(root, repr) && Filled(repr, contents, owner)
      requires t in repr && t.isTrie && t.path + [c] <= k && t.Slotted() && t.children[c] == null
      ensures k !in contents
    {
      assert k[..|t.path|] == t.path && k[|t.path|] == c;
      Descend(t, k, |t.path|);
    }

    /** A burst leaf is gone, and it was full; of the others none has become full. */
    method BurstFull(h: Node<T>, ghost k: Key, ghost limit: nat) returns (t: Node<T>)
      requires Valid() && LeavesWithin(repr, limit) && h in repr && !h.isTrie && h.path <= k && |h.bucket| >= burstThreshold
      modifies this`root, this`repr, this`owner, repr
      ensures Valid() && LeavesWithin(repr, limit) && fresh(repr - old(repr))
      ensures contents == old(contents)
      ensures t in repr && t.isTrie && t.path == old(h.path)
      ensures old(repr) - old(FullOn(repr, k, burstThreshold)) <= repr
      ensures old(repr) * FullOn(repr, k, burstThreshold) <= old(FullOn(repr, k, burstThreshold))
    {
      hide Linked, Filled, Compact, LeavesWithin;
      t := BurstInPlace(h, limit);
    }

    /** insert_in_hash_node() */
    method InsertInHashNode(hnode: Node<T>, key: Key, v: T, ghost k: Key, ghost limit: nat)
      returns (p: Position<T>, inserted: bool)
      requires Wf() && Compact(repr, hnode) && LeavesWithin(repr, limit)
      requires hnode in repr && !hnode.isTrie && k == hnode.path + key
      requires MIN_BURST_THRESHOLD <= burstThreshold <= limit
      modifies `root, `nbElements, `contents, `owner, `repr, repr
      ensures Valid() && LeavesWithin(repr, limit) && fresh(repr - old(repr))
      ensures contents == Inserted(old(contents), k, v) && (inserted <==> k !in old(contents))
      ensures Holds(p, k)
      ensures |old(hnode.bucket)| < burstThreshold ==> root == old(root)
      ensures old(repr) - old(FullOn(repr, k, burstThreshold)) <= repr
      decreases |key|, 1
    {
      hide Linked, Filled, Known, Stores, LeavesWithin;
      if |hnode.bucket| >= burstThreshold {
        var t := BurstFull(hnode, k, limit);
        p, inserted := InsertImpl(t, key, v, k, limit);
      } else {
        p, inserted := InsertEntry(hnode, key, v, k, limit);
      }
    }

    /** insert(), lines 1013-1015: the first leaf, still empty. */
    method NewRoot(ghost limit: nat)
      requires Wf() && root == null
      modifies `root, `repr
      ensures root != null && root in repr && !root.isTrie && root.path == [] && root.bucket == [] && fresh(repr)
      ensures Wf() && Compact(repr, root) && LeavesWithin(repr, limit)
    {
      root := new Node.Hash([], []);
      repr := {root};
    }

    /** burst_threshold(threshold): leaves that are larger now stay as they are until something goes into them. */
    method SetBurstThreshold(threshold: nat)
      requires Valid()
      modifies `burstThreshold
      ensures Valid()
      ensures burstThreshold == if threshold < MIN_BURST_THRESHOLD then MIN_BURST_THRESHOLD else threshold
      ensures old(Invariant()) && old(burstThreshold) <= threshold ==> Invariant()
    {
      burstThreshold := if threshold < MIN_BURST_THRESHOLD then MIN_BURST_THRESHOLD else threshold;
    }

    /** The least limit not below `least` that all leaves of a set keep to. */
    static lemma LeastLimit(repr: set<Node<T>>, least: nat) returns (limit: nat)
      ensures least <= limit && LeavesWithin(repr, limit)
      ensures forall other: nat :: least <= other && LeavesWithin(repr, other) ==> limit <= other
      decreases |repr|
    {
      if repr == {} {
        limit := least;
      } else {
        var n :| n in repr;
        var rest := LeastLimit(repr - {n}, least);
        limit := if |n.bucket| <= rest then rest else |n.bucket|;
        assert repr - {n} + {n} == repr;
        forall other: nat | least <= other && LeavesWithin(repr, other)
          ensures limit <= other
        {
          assert LeavesWithin(repr - {n}, other);
        }
      }
    }

    static lemma Widen(repr: set<Node<T>>, limit: nat)
      requires LeavesWithin(repr, limit)
      ensures forall other: nat {:trigger LeavesWithin(repr, other)} :: limit <= other ==> LeavesWithin(repr, other)
    {
    }

    /** insert(): into any well-formed tree, also one whose leaves exceed a lowered threshold. No leaf grows beyond the
        threshold, or beyond the largest leaf there was; and no node goes but full leaves on the way of the key. */
    method Insert(key: Key, v: T) returns (p: Position<T>, inserted: bool)
      requires Valid() && MIN_BURST_THRESHOLD <= burstThreshold
      modifies `root, `nbElements, `contents, `owner, `repr, repr
      ensures Valid() && fresh(repr - old(repr))
      ensures forall limit: nat :: burstThreshold <= limit && old(LeavesWithin(repr, limit)) ==> LeavesWithin(repr, limit)
      ensures old(Invariant()) ==> Invariant()
      ensures contents == if key in old(contents) then old(contents) else old(contents)[key := v]
      ensures inserted <==> key !in old(contents)
      ensures Holds(p, key)
      ensures old(root) == null ==> root != null && !root.isTrie
      ensures old(repr) - old(FullOn(repr, key, burstThreshold)) <= repr
    {
      hide Linked, Filled, Compact, LeavesWithin, Holds, Inserted, FullOn;
      ghost var limit := LeastLimit(repr, burstThreshold);
      p, inserted := InsertWithin(key, v, limit);
      Widen(repr, limit);
    }

    method InsertWithin(key: Key, v: T, ghost limit: nat) returns (p: Position<T>, inserted: bool)
      requires Valid() && LeavesWithin(repr, limit) && MIN_BURST_THRESHOLD <= burstThreshold <= limit
      modifies `root, `nbElements, `contents, `owner, `repr, repr
      ensures Valid() && LeavesWithin(repr, limit) && fresh(repr - old(repr))
      ensures contents == if key in old(contents) then old(contents) else old(contents)[key := v]
      ensures inserted <==> key !in old(contents)
      ensures Holds(p, key)
      ensures old(root) == null ==> root != null && !root.isTrie
      ensures old(repr) - old(FullOn(repr, key, burstThreshold)) <= repr
    {
      hide Linked, Filled, Compact, LeavesWithin, Holds, FullOn;
      if root == null {
        NoNodes();
        NewRoot(limit);
      } else {
        RootFacts();
      }
      assert key == [] + key;
      p, inserted := InsertImpl(root, key, v, key, limit);
    }

    lemma NoNodes()
      requires Valid() && root == null
      ensures repr == {}
    {
    }

    lemma RootFacts()
      requires Valid() && root != null
      ensures root in repr && root.path == [] && Compact(repr, if root.isTrie then null else root)
    {
    }
  }
}
