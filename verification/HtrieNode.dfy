/**
 The nodes of the HAT-trie (inc/tsl/htrie_hash.h).

 A node is either a trie node (an optional value and 256 child slots) or a hash node (a bucket of
 suffix/value pairs). `array_hash` is not part of the repository's own sources in scope, so a bucket
 is an ordered sequence of pairs with distinct suffixes, and where a new pair goes is left open.
 */
module HtrieNode {

  datatype Option<+T> = None | Some(value: T)

  // unsigned value of a `char`; as_position() is the identity on it
  type Byte = b: int | 0 <= b < 256

  type Key = seq<Byte>

  type Bucket<+T> = seq<(Key, T)>

  const ALPHABET_SIZE := 256

  const MIN_BURST_THRESHOLD := 4

  class Node<T> {
    // m_node_type
    const isTrie: bool
    // m_parent_node
    var parent: Node?<T>
    // m_child_of_char, meaningful only when there is a parent
    var childOf: Byte
    // trie node: m_value_node
    var value: Option<T>
    // trie node: m_children
    var children: seq<Node?<T>>
    // hash node: m_array_hash
    var bucket: Bucket<T>

    // the characters on the way from the root to this node
    ghost var path: Key

    constructor Trie(ghost p: Key)
      ensures isTrie && parent == null && value == None && bucket == [] && path == p
      ensures |children| == ALPHABET_SIZE && forall c :: 0 <= c < ALPHABET_SIZE ==> children[c] == null
    {
      isTrie := true;
      parent, childOf, value, bucket, path := null, 0, None, [], p;
      children := seq(ALPHABET_SIZE, _ => null);
    }

    constructor Hash(b: Bucket<T>, ghost p: Key)
      ensures !isTrie && parent == null && value == None && children == [] && bucket == b && path == p
    {
      isTrie := false;
      parent, childOf, value, children, bucket, path := null, 0, None, [], b, p;
    }

    /** A trie node has 256 child slots, a hash node has none. */
    ghost predicate Slotted()
      reads `children
    {
      |children| == if isTrie then ALPHABET_SIZE else 0
    }

    /** A trie node has no bucket; a hash node has no value, and a bucket without duplicates. */
    ghost predicate Stocked()
      reads `value, `bucket
    {
      if isTrie then bucket == [] else value == None && DistinctKeys(bucket)
    }

    /** A node that must not stay in a tree: no value, no child, no bucket entry. */
    ghost predicate Hollow()
      reads `value, `bucket, `children
    {
      value == None && bucket == [] && forall c :: 0 <= c < |children| ==> children[c] == null
    }

    /** first_child(): the leftmost child. */
    method FirstChild() returns (child: Node?<T>)
      requires isTrie && Slotted()
      ensures child == null <==> forall c :: 0 <= c < ALPHABET_SIZE ==> children[c] == null
      ensures child != null ==> exists c: Byte :: IsFirstFrom(0, c) && children[c] == child
    {
      var i := 0;
      while i < |children|
        invariant 0 <= i <= ALPHABET_SIZE
        invariant forall c :: 0 <= c < i ==> children[c] == null
      {
        if children[i] != null {
          assert IsFirstFrom(0, i);
          return children[i];
        }
        i := i + 1;
      }
      return null;
    }

    /** next_child(current): the leftmost child to the right of `current`. */
    method NextChild(current: Node<T>) returns (child: Node?<T>)
      requires isTrie && Slotted() && current.parent == this
      ensures child == null <==> forall c :: current.childOf < c < ALPHABET_SIZE ==> children[c] == null
      ensures child != null ==> exists c: Byte :: IsFirstFrom(current.childOf + 1, c) && children[c] == child
    {
      var i := current.childOf + 1;
      while i < |children|
        invariant current.childOf < i <= ALPHABET_SIZE
        invariant forall c :: current.childOf < c < i ==> children[c] == null
      {
        if children[i] != null {
          assert IsFirstFrom(current.childOf + 1, i);
          return children[i];
        }
        i := i + 1;
      }
      return null;
    }

    ghost predicate IsFirstFrom(lo: nat, c: Byte)
      requires |children| == ALPHABET_SIZE
      reads `children
    {
      lo <= c && children[c] != null && forall d :: lo <= d < c ==> children[d] == null
    }

    ghost predicate TwoChildren(c: int, d: int)
      reads `children
    {
      0 <= c < d < |children| && children[c] != null && children[d] != null
    }

    /** The slots in use, up to one of them. */
    ghost function Used(upTo: nat): (used: set<int>)
      requires upTo <= |children|
      reads `children
    {
      set c | 0 <= c < upTo && children[c] != null
    }

    /** nb_children() */
    method NbChildren() returns (count: nat)
      requires isTrie && Slotted()
      ensures count == |Used(ALPHABET_SIZE)|
      ensures count == 0 <==> forall c :: 0 <= c < ALPHABET_SIZE ==> children[c] == null
      ensures count > 1 <==> exists c, d :: TwoChildren(c, d)
    {
      count := 0;
      ghost var last := 0;
      var i := 0;
      while i < |children|
        invariant 0 <= i <= ALPHABET_SIZE
        invariant count == |Used(i)|
        invariant count == 0 <==> forall c :: 0 <= c < i ==> children[c] == null
        invariant count > 0 ==> 0 <= last < i && children[last] != null
        invariant count > 1 <==> exists c, d :: d < i && TwoChildren(c, d)
      {
        assert Used(i + 1) == if children[i] != null then Used(i) + {i} else Used(i);
        if children[i] != null {
          if count > 0 {
            assert TwoChildren(last, i);
          }
          count := count + 1;
          last := i;
        }
        i := i + 1;
      }
      if c, d :| TwoChildren(c, d) {
        assert d < i;
      }
    }

    /** empty(): no child at all; says nothing about the value. */
    method Empty() returns (none: bool)
      requires isTrie && Slotted()
      ensures none <==> forall c :: 0 <= c < ALPHABET_SIZE ==> children[c] == null
    {
      var i := 0;
      while i < |children|
        invariant 0 <= i <= ALPHABET_SIZE
        invariant forall c :: 0 <= c < i ==> children[c] == null
      {
        if children[i] != null {
          return false;
        }
        i := i + 1;
      }
      return true;
    }

    /** child(c).reset(nullptr), or set_child() with nullptr. */
    method ResetChild(c: Byte)
      requires isTrie && |children| == ALPHABET_SIZE
      modifies `children
      ensures children == old(children)[c := null]
    {
      children := children[c := null];
    }

    /** set_child() with a node. */
    method SetChild(c: Byte, child: Node<T>)
      requires isTrie && |children| == ALPHABET_SIZE && child != this
      modifies this`children, child`childOf, child`parent
      ensures children == old(children)[c := child]
      ensures child.childOf == c && child.parent == this
    {
      child.childOf := c;
      child.parent := this;
      children := children[c := child];
    }
  }

  ghost predicate DistinctKeys<T>(b: Bucket<T>)
  {
    forall i, j :: 0 <= i < j < |b| ==> b[i].0 != b[j].0
  }

  ghost predicate HasKey<T>(b: Bucket<T>, k: Key)
  {
    exists i :: 0 <= i < |b| && b[i].0 == k
  }

  /** find_ks(): the index of a suffix, or the end position. */
  method FindInBucket<T>(b: Bucket<T>, k: Key) returns (i: nat)
    ensures i <= |b|
    ensures i < |b| ==> b[i].0 == k
    ensures i == |b| <==> !HasKey(b, k)
  {
    i := 0;
    while i < |b|
      invariant i <= |b|
      invariant forall j :: 0 <= j < i ==> b[j].0 != k
    {
      if b[i].0 == k {
        return;
      }
      i := i + 1;
    }
  }

  /** emplace_ks(): adds a pair unless the suffix is there; the order among the pairs is the hash's own. */
  method Emplace<T>(b: Bucket<T>, k: Key, v: T) returns (b': Bucket<T>, i: nat, inserted: bool)
    requires DistinctKeys(b)
    ensures DistinctKeys(b')
    ensures i < |b'| && b'[i].0 == k
    ensures inserted <==> !HasKey(b, k)
    ensures !inserted ==> b' == b
    ensures inserted ==> i <= |b| && b' == b[..i] + [(k, v)] + b[i..]
  {
    i := FindInBucket(b, k);
    if i < |b| {
      return b, i, false;
    }
    i :| 0 <= i <= |b|;
    b' := b[..i] + [(k, v)] + b[i..];
    inserted := true;
  }
}
