/**
 serialize() and deserialize() (inc/tsl/htrie_hash.h:1855-1910, 1924-2020). A stream is a sequence of
 tokens: what the calls of the serializer put into it, characters one by one.
 */
module HtrieSerial {
  import opened HtrieNode
  import opened KeyOrder
  import opened Htrie
  import opened HtrieIterator
  import opened HtrieTraversal
  import opened HtriePrefix
  import opened HtrieErasePrefix

  datatype Token<T> = Number(n: nat) | Char(c: Byte) | Value(v: T) | Pairs(b: Bucket<T>)

  // slz_node_type
  const TRIE_NODE: Byte := 0
  const HASH_NODE: Byte := 1

  const SERIALIZATION_PROTOCOL_VERSION := 1

  /** What is written for a node that holds elements. */
  datatype Record<T> = TrieRecord(prefix: Key, value: T) | HashRecord(prefix: Key, bucket: Bucket<T>)

  // ---------------------------------------------------------------- the form of a stream

  function Chars<T>(s: Key): (tokens: seq<Token<T>>)
    ensures |tokens| == |s|
  {
    seq(|s|, i requires 0 <= i < |s| => Char(s[i]))
  }

  function Encoded<T>(r: Record<T>): seq<Token<T>> {
    match r
    case TrieRecord(p, v) => [Char(TRIE_NODE), Number(|p|)] + Chars(p) + [Value(v)]
    case HashRecord(p, b) => [Char(HASH_NODE), Number(|p|)] + Chars(p) + [Pairs(b)]
  }

  function AllEncoded<T>(records: seq<Record<T>>): seq<Token<T>> {
    if records == [] then [] else Encoded(records[0]) + AllEncoded(records[1..])
  }

  function Header<T>(version: nat, nbElements: nat, burstThreshold: nat): seq<Token<T>> {
    [Number(version), Number(nbElements), Number(burstThreshold)]
  }

  /** A stream of a trie node's record and a hash node's, token by token. */
  lemma FormOfStream<T>(v: T, b: Bucket<T>)
    ensures Header<T>(SERIALIZATION_PROTOCOL_VERSION, 2, 4) + AllEncoded([TrieRecord([97], v), HashRecord([97, 98], b)]) ==
      [Number(1), Number(2), Number(4),
       Char(0), Number(1), Char(97), Value(v),
       Char(1), Number(2), Char(97), Char(98), Pairs(b)]
  {
    var first, second := TrieRecord([97], v), HashRecord([97, 98], b);
    assert [first, second][1..] == [second] && [second][1..] == [];
    assert AllEncoded([second]) == Encoded(second) + AllEncoded([]);
    assert AllEncoded([first, second]) == Encoded(first) + Encoded(second);
    assert Encoded(first) == [Char(0), Number(1), Char(97), Value(v)];
    assert Encoded(second) == [Char(1), Number(2), Char(97), Char(98), Pairs(b)];
  }

  /** How many elements a record stands for. */
  function Size<T>(r: Record<T>): nat {
    if r.TrieRecord? then 1 else |r.bucket|
  }

  function Total<T>(records: seq<Record<T>>): nat {
    if records == [] then 0 else Size(records[0]) + Total(records[1..])
  }

  lemma {:induction false} Snoc<T>(records: seq<Record<T>>, r: Record<T>)
    ensures AllEncoded(records + [r]) == AllEncoded(records) + Encoded(r)
    ensures Total(records + [r]) == Total(records) + Size(r)
  {
    hide Encoded, Size;
    if records == [] {
      assert [r][1..] == [];
    } else {
      assert (records + [r])[1..] == records[1..] + [r];
      Snoc(records[1..], r);
    }
  }

  lemma NothingWritten<T>(header: seq<Token<T>>)
    ensures header == header + AllEncoded([]) && Total<T>([]) == 0
  {
  }

  lemma WrittenOn<T>(header: seq<Token<T>>, records: seq<Record<T>>, r: Record<T>)
    ensures header + AllEncoded(records) + Encoded(r) == header + AllEncoded(records + [r])
    ensures Total(records + [r]) == Total(records) + Size(r)
  {
    hide Encoded, Size, AllEncoded, Total;
    Snoc(records, r);
  }

  // ---------------------------------------------------------------- what a tree is written as

  ghost function RecordOf<T>(n: Node<T>): Record<T>
    requires n.isTrie ==> n.value.Some?
    reads n`path, n`value, n`bucket
  {
    if n.isTrie then TrieRecord(n.path, n.value.value) else HashRecord(n.path, n.bucket)
  }

  /** The node holds what the record says; a leaf holds the same pairs, in whatever order. */
  ghost predicate Matches<T(!new)>(n: Node<T>, r: Record<T>)
    reads n`path, n`value, n`bucket
  {
    n.path == r.prefix && n.isTrie == r.TrieRecord? &&
    if n.isTrie then n.value == Some(r.value) else SamePairs(n.bucket, r.bucket)
  }

  ghost predicate SamePairs<T(!new)>(b: Bucket<T>, c: Bucket<T>) {
    |b| == |c| && DistinctKeys(b) && DistinctKeys(c) && forall e :: e in b <==> e in c
  }

  /** `m` is before `end` in the order of the tree, or there is no end. */
  ghost predicate Until<T>(m: Node<T>, end: Node?<T>)
    reads m`path, end
  {
    end == null || Before(m.path, end.path)
  }

  ghost predicate InRecords<T(!new)>(m: Node<T>, records: seq<Record<T>>)
    reads m`path, m`value, m`bucket
  {
    exists i :: 0 <= i < |records| && Matches(m, records[i])
  }

  ghost predicate IsSource<T(!new)>(t: Htrie<T>, r: Record<T>, end: Node?<T>, m: Node<T>)
    reads t, m, end
  {
    Holder(t, m) && Until(m, end) && Matches(m, r)
  }

  ghost predicate HasSource<T(!new)>(t: Htrie<T>, r: Record<T>, end: Node?<T>)
    reads t, t.repr, end
  {
    exists m :: m in t.repr && IsSource(t, r, end, m)
  }

  ghost predicate Covered<T(!new)>(t: Htrie<T>, records: seq<Record<T>>, end: Node?<T>)
    reads t, t.repr, end
  {
    forall m :: m in t.repr && Holder(t, m) && Until(m, end) ==> InRecords(m, records)
  }

  ghost predicate Sourced<T(!new)>(t: Htrie<T>, records: seq<Record<T>>, end: Node?<T>)
    reads t, t.repr, end
  {
    forall i :: 0 <= i < |records| ==> HasSource(t, records[i], end)
  }

  /** The holders before `end`, or all of them, are those recorded, in the order of the tree. */
  ghost predicate Recorded<T(!new)>(t: Htrie<T>, records: seq<Record<T>>, end: Node?<T>)
    reads t, t.repr, end
  {
    Covered(t, records, end) && Sourced(t, records, end) && Ascending(records)
  }

  ghost predicate Ascending<T>(records: seq<Record<T>>) {
    forall i, j :: 0 <= i < j < |records| ==> Before(records[i].prefix, records[j].prefix)
  }

  /** hash_node_prefix() */
  method HashNodePrefix<T>(t: Htrie<T>, it: Iterator<T>) returns (prefix: Key)
    requires t.Wf() && !it.readValue && Standing(t, it)
    ensures prefix == it.hashNode.path
  {
    StandingFacts(t, it);
    hide Htrie.Linked, Htrie.Filled;
    prefix := PathUp(t, it.trieNode);
    prefix := HtrieIterator.Reversed(prefix);
    if it.hashNode.parent != null {
      prefix := prefix + [it.hashNode.childOf];
    }
  }

  /** The loop body of serialize_impl(): one record, and on to the next node. */
  method WriteNode<T>(t: Htrie<T>, it: Iterator<T>, ghost f: Node<T>) returns (tokens: seq<Token<T>>)
    requires t.Valid() && Opens(t, it, f) && it.filter == []
    ensures Holder(t, f) && tokens == Encoded(RecordOf(f))
  {
    hide Htrie.Linked, Htrie.Filled, Htrie.Compact;
    if it.readValue {
      tokens := [Char(TRIE_NODE)];
      var key := GetKey(t, it);
      var v := it.trieNode.value.value;
      tokens := tokens + [Number(|key|)] + Chars(key) + [Value(v)];
    } else {
      tokens := [Char(HASH_NODE)];
      var prefix := HashNodePrefix(t, it);
      tokens := tokens + [Number(|prefix|)] + Chars(prefix) + [Pairs(it.hashNode.bucket)];
    }
  }

  lemma RecordedNone<T(!new)>(t: Htrie<T>, r: Node<T>)
    requires t.Wf() && FirstBelow(t, [], r)
    ensures Recorded(t, [], r)
  {
    forall m | m in t.repr && Holder(t, m)
      ensures !Before(m.path, r.path)
    {
      assert [] <= m.path && AtOrAfter(r.path, m.path);
      if r.path != m.path {
        BeforeAsymmetric(r.path, m.path);
      }
    }
  }

  lemma RecordedNothing<T(!new)>(t: Htrie<T>)
    requires t.Valid() && t.contents == map[]
    ensures Recorded(t, [], null)
  {
    forall m | m in t.repr && Holder(t, m)
      ensures false
    {
      HolderOwns(t, m);
    }
  }

  lemma HolderOwns<T>(t: Htrie<T>, m: Node<T>)
    requires t.Valid() && m in t.repr && Holder(t, m)
    ensures t.contents != map[]
  {
    assert Htrie.Known(m, t.contents, t.owner) && !m.Hollow() && m.Slotted();
    if m.isTrie {
      assert m.path in t.contents;
    } else {
      assert m.path + m.bucket[0].0 in t.contents;
    }
  }

  /** One more record: what is before the next holder is what was before this one, and this one. */
  lemma RecordedNext<T(!new)>(t: Htrie<T>, records: seq<Record<T>>, f: Node<T>, r: Node?<T>)
    requires t.Wf() && f in t.repr && Holder(t, f) && Recorded(t, records, f) && NextHolder(t, f.path, r)
    ensures Recorded(t, records + [RecordOf(f)], r)
  {
    hide Htrie.Linked, Htrie.Filled;
    hide Before, Matches, Covered, Sourced, Ascending, NextHolder;
    CoveredNext(t, records, f, r);
    SourcedNext(t, records, f, r);
    SourcesBefore(t, records, f);
    AscendingNext(records, RecordOf(f));
  }

  lemma AscendingNext<T>(records: seq<Record<T>>, r: Record<T>)
    requires Ascending(records) && forall i :: 0 <= i < |records| ==> Before(records[i].prefix, r.prefix)
    ensures Ascending(records + [r])
  {
    hide Before;
  }

  lemma CoveredNext<T(!new)>(t: Htrie<T>, records: seq<Record<T>>, f: Node<T>, r: Node?<T>)
    requires t.Wf() && f in t.repr && Holder(t, f) && Covered(t, records, f) && NextHolder(t, f.path, r)
    ensures Covered(t, records + [RecordOf(f)], r)
  {
    hide Htrie.Linked, Htrie.Filled, NextHolder, Before, Matches;
    var after := records + [RecordOf(f)];
    HolderStocked(t, f);
    MatchesItself(f);
    assert after[|records|] == RecordOf(f);
    forall m | m in t.repr && Holder(t, m) && Until(m, r)
      ensures InRecords(m, after)
    {
      BeforeTotal(m.path, f.path);
      if Before(m.path, f.path) {
        var i :| 0 <= i < |records| && Matches(m, records[i]);
        assert after[i] == records[i];
      } else if m.path == f.path {
        SamePathSameNode(t, m, f);
      } else {
        NotBetween(t, f, r, m);
      }
    }
  }

  lemma SourcedNext<T(!new)>(t: Htrie<T>, records: seq<Record<T>>, f: Node<T>, r: Node?<T>)
    requires t.Wf() && f in t.repr && Holder(t, f) && Sourced(t, records, f) && NextHolder(t, f.path, r)
    ensures Sourced(t, records + [RecordOf(f)], r)
  {
    hide Htrie.Linked, Htrie.Filled, NextHolder, Before, Matches;
    var after := records + [RecordOf(f)];
    HolderStocked(t, f);
    MatchesItself(f);
    LaterEnd(t, f, f, r);
    assert IsSource(t, RecordOf(f), r, f);
    forall i | 0 <= i < |records|
      ensures HasSource(t, records[i], r)
    {
      assert HasSource(t, records[i], f);
      var m :| m in t.repr && IsSource(t, records[i], f, m);
      LaterEnd(t, m, f, r);
      assert IsSource(t, records[i], r, m);
    }
  }

  lemma MatchesItself<T(!new)>(f: Node<T>)
    requires f.Stocked() && (f.isTrie ==> f.value.Some?)
    ensures Matches(f, RecordOf(f)) && RecordOf(f).prefix == f.path
  {
  }

  lemma HolderStocked<T>(t: Htrie<T>, f: Node<T>)
    requires t.Wf() && f in t.repr
    ensures f.Stocked()
  {
    assert Htrie.Known(f, t.contents, t.owner);
  }

  lemma LaterEnd<T>(t: Htrie<T>, m: Node<T>, f: Node<T>, r: Node?<T>)
    requires NextHolder(t, f.path, r) && (m == f || Before(m.path, f.path))
    ensures Until(m, r)
  {
    if r != null && m != f {
      BeforeTransitive(m.path, f.path, r.path);
    }
  }

  lemma SourcesBefore<T(!new)>(t: Htrie<T>, records: seq<Record<T>>, f: Node<T>)
    requires Sourced(t, records, f)
    ensures forall i :: 0 <= i < |records| ==> Before(records[i].prefix, f.path)
  {
    hide Before;
    forall i | 0 <= i < |records|
      ensures Before(records[i].prefix, f.path)
    {
      assert HasSource(t, records[i], f);
      var m :| m in t.repr && IsSource(t, records[i], f, m);
    }
  }

  lemma SamePathSameNode<T>(t: Htrie<T>, m: Node<T>, n: Node<T>)
    requires t.Wf() && m in t.repr && n in t.repr && m.path == n.path
    ensures m == n
  {
    t.Unique(m, n);
  }

  /** No holder is between a holder and the next. */
  lemma NotBetween<T>(t: Htrie<T>, f: Node<T>, r: Node?<T>, m: Node<T>)
    requires t.Wf() && NextHolder(t, f.path, r) && m in t.repr && Holder(t, m)
    ensures Before(f.path, m.path) ==> r != null && !Before(m.path, r.path)
  {
    hide Htrie.Linked, Htrie.Filled;
    if Before(f.path, m.path) && r.path != m.path {
      BeforeAsymmetric(r.path, m.path);
    }
  }

  lemma FirstOpens<T(!new)>(t: Htrie<T>, it: Iterator<T>, r: Node?<T>)
    requires t.Valid()
    requires t.contents == map[] ==> IsEnd(it)
    requires t.contents != map[] ==> r != null && FirstBelow(t, [], r) && StartsAt(it, r)
    ensures var node := if IsEnd(it) then null else r; Opens(t, it, node) && Recorded(t, [], node)
  {
    hide Recorded;
    if t.contents == map[] {
      RecordedNothing(t);
    } else {
      StandingAfter(t, r, it);
      RecordedNone(t, r);
    }
  }

  lemma NotAtEnd<T>(t: Htrie<T>, it: Iterator<T>, node: Node?<T>)
    requires Opens(t, it, node)
    ensures IsEnd(it) <==> node == null
    ensures node != null ==> node in t.repr && Holder(t, node)
  {
  }

  /** What is ahead shrinks by what the record stands for. */
  lemma StepCounts<T>(t: Htrie<T>, it: Iterator<T>, f: Node<T>, it': Iterator<T>, r: Node?<T>)
    requires t.Valid() && Opens(t, it, f) && Opens(t, it', r) && NextHolder(t, f.path, r)
    ensures Holder(t, f) && |Remaining(t, it)| == |Remaining(t, it')| + Size(RecordOf(f))
    ensures Remaining(t, it') < Remaining(t, it)
  {
    hide Htrie.Linked, Htrie.Filled, Htrie.Compact, Remaining, NextHolder, Owned, Standing, StartsAt;
    SkipNode(t, it, f, it', r);
    OwnedSize(t, f);
    HolderSize(t, f);
    SetDrop(Remaining(t, it), Owned(t.owner, f));
    assert Remaining(t, it) - Owned(t.owner, f) == Remaining(t, it');
  }

  lemma HolderSize<T>(t: Htrie<T>, f: Node<T>)
    requires t.Valid() && f in t.repr && Holder(t, f)
    ensures Size(RecordOf(f)) == (if f.isTrie then 1 else |f.bucket|) && Size(RecordOf(f)) > 0
  {
    assert !f.Hollow() && f.Slotted() && Htrie.Known(f, t.contents, t.owner);
  }

  /** serialize_impl() */
  method Serialize<T(!new)>(t: Htrie<T>) returns (tokens: seq<Token<T>>, ghost records: seq<Record<T>>)
    requires t.Valid()
    ensures tokens == Header(SERIALIZATION_PROTOCOL_VERSION, t.nbElements, t.burstThreshold) + AllEncoded(records)
    ensures Recorded(t, records, null) && Total(records) == t.nbElements
  {
    hide Htrie.Linked, Htrie.Filled, Htrie.Compact, Remaining, NextHolder, Owned, Standing, StartsAt, Recorded, Encoded, Size, AllEncoded, Total;
    KeysAgree(t);
    ghost var r, node: Node?<T>;
    var it;
    it, r := Begin(t);
    AllAhead(t, it, r);
    ghost var header := Header<T>(SERIALIZATION_PROTOCOL_VERSION, t.nbElements, t.burstThreshold);
    tokens := Header(SERIALIZATION_PROTOCOL_VERSION, t.nbElements, t.burstThreshold);
    records := [];
    NothingWritten(header);
    node := if IsEnd(it) then null else r;
    FirstOpens(t, it, r);
    while !IsEnd(it)
      invariant Opens(t, it, node) && it.filter == []
      invariant tokens == header + AllEncoded(records)
      invariant Recorded(t, records, node) && Total(records) + |Remaining(t, it)| == t.nbElements
      decreases Remaining(t, it)
    {
      NotAtEnd(t, it, node);
      var written := WriteNode(t, it, node);
      var it', size;
      it', r, size := NextNode(t, it, node);
      StepCounts(t, it, node, it', r);
      RecordedNext(t, records, node, r);
      WrittenOn(header, records, RecordOf(node));
      tokens := tokens + written;
      records, it, node := records + [RecordOf(node)], it', r;
    }
    NothingAhead(t, it);
    NotAtEnd(t, it, node);
  }

  // ---------------------------------------------------------------- what can be read back

  /** Records that a tree can be made of: no leaf is on the way to another record, and none is empty. */
  ghost predicate Consistent<T>(records: seq<Record<T>>) {
    && (forall i, j :: 0 <= i < |records| && 0 <= j < |records| && i != j ==> Apart(records[i], records[j]))
    && (forall i :: 0 <= i < |records| ==> Size(records[i]) > 0 && (records[i].HashRecord? ==> DistinctKeys(records[i].bucket)))
  }

  ghost predicate Apart<T>(r: Record<T>, s: Record<T>) {
    r.prefix != s.prefix && (r.HashRecord? ==> !(r.prefix <= s.prefix)) && (s.HashRecord? ==> !(s.prefix <= r.prefix))
  }

  lemma RecordsConsistent<T(!new)>(t: Htrie<T>, records: seq<Record<T>>)
    requires t.Valid() && Recorded(t, records, null)
    ensures Consistent(records)
  {
    hide Htrie.Linked, Htrie.Filled, Htrie.Compact, Before, SamePairs;
    forall i | 0 <= i < |records|
      ensures Size(records[i]) > 0 && (records[i].HashRecord? ==> DistinctKeys(records[i].bucket))
    {
      assert HasSource(t, records[i], null);
      var m :| m in t.repr && IsSource(t, records[i], null, m);
      HolderSize(t, m);
      SamePairsSize(m, records[i]);
    }
    forall i, j | 0 <= i < |records| && 0 <= j < |records| && i != j
      ensures Apart(records[i], records[j])
    {
      RecordsApart(t, records, i, j);
    }
  }

  lemma SamePairsSize<T(!new)>(m: Node<T>, r: Record<T>)
    requires Matches(m, r)
    ensures Size(r) == if m.isTrie then 1 else |m.bucket|
    ensures r.HashRecord? ==> DistinctKeys(r.bucket)
  {
  }

  lemma RecordsApart<T(!new)>(t: Htrie<T>, records: seq<Record<T>>, i: int, j: int)
    requires t.Valid() && Recorded(t, records, null)
    requires 0 <= i < |records| && 0 <= j < |records| && i != j
    ensures Apart(records[i], records[j])
  {
    hide Htrie.Linked, Htrie.Filled, Htrie.Compact, Covered, IsSource, Apart;
    assert HasSource(t, records[i], null) && HasSource(t, records[j], null);
    var m :| m in t.repr && IsSource(t, records[i], null, m);
    var n :| n in t.repr && IsSource(t, records[j], null, n);
    AscendingDistinct(records, i, j);
    SourcesApart(t, records[i], records[j], m, n);
  }

  lemma AscendingDistinct<T>(records: seq<Record<T>>, i: int, j: int)
    requires Ascending(records) && 0 <= i < |records| && 0 <= j < |records| && i != j
    ensures records[i].prefix != records[j].prefix
  {
    assert i < j ==> Before(records[i].prefix, records[j].prefix);
    assert j < i ==> Before(records[j].prefix, records[i].prefix);
  }

  lemma SourcesApart<T(!new)>(t: Htrie<T>, r: Record<T>, s: Record<T>, m: Node<T>, n: Node<T>)
    requires t.Wf() && m in t.repr && n in t.repr && r.prefix != s.prefix
    requires IsSource(t, r, null, m) && IsSource(t, s, null, n)
    ensures Apart(r, s)
  {
    hide Htrie.Linked, Htrie.Filled, SamePairs;
    if !m.isTrie {
      NoNodeBelowLeaf(t, m, n);
    }
    if !n.isTrie {
      NoNodeBelowLeaf(t, n, m);
    }
  }

  lemma NoNodeBelowLeaf<T>(t: Htrie<T>, m: Node<T>, n: Node<T>)
    requires t.Wf() && m in t.repr && n in t.repr && m.path != n.path && !m.isTrie
    ensures !(m.path <= n.path)
  {
    if m.path <= n.path {
      WayDown(t, m, n);
    }
  }

  // ---------------------------------------------------------------- what a tree holds, as records

  ghost predicate HoldsElements<T>(n: Node<T>)
    reads n`value
  {
    n.isTrie ==> n.value.Some?
  }

  /** The records of all nodes that hold elements. */
  ghost function View<T>(repr: set<Node<T>>): set<Record<T>>
    reads repr`path, repr`value, repr`bucket
  {
    set n | n in repr && HoldsElements(n) :: RecordOf(n)
  }

  /** Nodes that hold nothing do not show. */
  lemma ViewGrows<T>(repr: set<Node<T>>, more: set<Node<T>>)
    requires forall n :: n in more ==> !HoldsElements(n)
    ensures View(repr + more) == View(repr)
  {
  }

  lemma ViewAdd<T>(repr: set<Node<T>>, n: Node<T>)
    requires HoldsElements(n)
    ensures View(repr + {n}) == View(repr) + {RecordOf(n)}
  {
  }

  // ---------------------------------------------------------------- nodes made on demand

  /** A new trie node that holds nothing. */
  ghost predicate Blank<T>(n: Node<T>)
    reads n
  {
    n.isTrie && n.value == None && n.bucket == [] && n.Slotted() && forall c :: 0 <= c < |n.children| ==> n.children[c] == null
  }

  /** insert_prefix_trie_nodes(), lines 2006-2008 */
  method NewTrieRoot<T>(t: Htrie<T>)
    requires t.Wf() && t.root == null
    modifies t`root, t`repr
    ensures t.root != null && fresh(t.root) && t.repr == {t.root} && Blank(t.root) && t.root.path == []
    ensures t.Wf() && Htrie.Compact(t.repr, t.root)
  {
    t.root := new Node.Trie([]);
    t.repr := {t.root};
    assert t.contents.Keys == {};
  }

  /** A trie node hung into an empty slot. */
  method HangTrieNode<T>(ghost root: Node?<T>, ghost repr: set<Node<T>>, n: Node<T>, c: Byte) returns (child: Node<T>)
    requires Htrie.Linked(root, repr) && Htrie.Compact(repr, n) && n in repr && n.isTrie && n.children[c] == null
    modifies n`children
    ensures fresh(child) && Blank(child) && child.path == n.path + [c]
    ensures Htrie.Linked(root, repr + {child}) && Htrie.Compact(repr + {child}, child)
  {
    child := new Node.Trie(n.path + [c]);
    n.SetChild(c, child);
    assert n.children[c] != null;
  }

  /** insert_prefix_trie_nodes(), lines 2012-2014 */
  method AddTrieChild<T>(t: Htrie<T>, n: Node<T>, c: Byte) returns (child: Node<T>)
    requires t.Wf() && Htrie.Compact(t.repr, n) && n in t.repr && n.isTrie && n.Slotted() && n.children[c] == null
    modifies t`repr, n`children
    ensures fresh(child) && t.repr == old(t.repr) + {child} && Blank(child) && child.path == n.path + [c]
    ensures t.Wf() && Htrie.Compact(t.repr, child)
  {
    hide Htrie.Filled, Htrie.Linked, Htrie.Compact, Blank;
    child := HangTrieNode(t.root, t.repr, n, c);
    FilledBlank(t.repr, t.contents, t.owner, child);
    t.repr := t.repr + {child};
  }

  lemma FilledBlank<T>(repr: set<Node<T>>, contents: map<Key, T>, owner: map<Key, Node<T>>, n: Node<T>)
    requires Htrie.Filled(repr, contents, owner) && Blank(n)
    ensures Htrie.Filled(repr + {n}, contents, owner)
  {
  }

  /** No leaf is on the way to a path. */
  ghost predicate Clear<T>(repr: set<Node<T>>, path: Key)
    reads repr`path
  {
    forall n :: n in repr && !n.isTrie ==> !(n.path <= path)
  }

  /** The root, where the way of a prefix begins. */
  lemma WayBegins<T>(t: Htrie<T>, prefix: Key)
    requires t.Valid() && t.root != null && Clear(t.repr, prefix)
    ensures t.root in t.repr && t.root.isTrie && t.root.path == [] && Htrie.Compact(t.repr, t.root)
  {
  }

  /** An existing node on the way of a prefix is a trie node, and the way goes on there. */
  lemma WayGoesOn<T>(t: Htrie<T>, prefix: Key, n: Node<T>, i: nat)
    requires t.Wf() && Clear(t.repr, prefix) && n in t.repr && n.isTrie && i < |prefix| && n.path == prefix[..i]
    ensures n.Slotted()
    ensures n.children[prefix[i]] != null ==>
      var child := n.children[prefix[i]]; child in t.repr && child.isTrie && child.path == prefix[..i + 1]
  {
    if n.children[prefix[i]] != null {
      assert n.path + [prefix[i]] == prefix[..i + 1];
    }
  }

  /** Existing nodes have a child or a value, so only the last node of the way may be empty. */
  lemma OnlyLast<T>(repr: set<Node<T>>, n: Node<T>, child: Node<T>)
    requires Htrie.Compact(repr, n) && n in repr && n.isTrie && n.Slotted()
    requires exists c: Byte :: n.children[c] == child
    ensures Htrie.Compact(repr, child)
  {
  }

  /** insert_prefix_trie_nodes() */
  method InsertPrefixTrieNodes<T>(t: Htrie<T>, prefix: Key) returns (node: Node<T>)
    requires t.Valid() && Clear(t.repr, prefix)
    modifies t`root, t`repr, t.repr`children
    ensures t.Wf() && Htrie.Compact(t.repr, node)
    ensures node in t.repr && node.isTrie && node.path == prefix
    ensures old(t.repr) <= t.repr && fresh(t.repr - old(t.repr))
    ensures NewOnWay(t.repr - old(t.repr), prefix)
    ensures View(t.repr) == old(View(t.repr))
  {
    hide Htrie.Linked, Htrie.Filled, Htrie.Compact, Clear, NewOnWay, View;
    ghost var start := t.repr;
    if t.root == null {
      NothingYet(t);
      NewTrieRoot(t);
      node := t.root;
      RootOnWay(node, prefix);
      assert t.repr - old(t.repr) == {node} && t.repr == {node};
    } else {
      WayBegins(t, prefix);
      node := t.root;
      NoneOnWay<T>(prefix);
      assert t.repr - old(t.repr) == {};
    }
    for i := 0 to |prefix|
      invariant t.Wf() && Htrie.Compact(t.repr, node)
      invariant node in t.repr && node.isTrie && node.path == prefix[..i]
      invariant old(t.repr) <= t.repr && fresh(t.repr - old(t.repr))
      invariant NewOnWay(t.repr - old(t.repr), prefix) && Clear(t.repr, prefix)
    {
      WayGoesOn(t, prefix, node, i);
      ghost var before := t.repr;
      if node.children[prefix[i]] == null {
        assert node.path + [prefix[i]] == prefix[..i + 1];
        node := AddTrieChild(t, node, prefix[i]);
        OneMoreOnWay(before - old(t.repr), before, node, prefix);
        assert t.repr - old(t.repr) == before - old(t.repr) + {node};
      } else {
        OnlyLast(t.repr, node, node.children[prefix[i]]);
        node := node.children[prefix[i]];
      }
    }
    NothingOnWay(t.repr - start, prefix);
    ViewGrows(start, t.repr - start);
    assert start + (t.repr - start) == t.repr;
  }

  lemma NothingOnWay<T>(nodes: set<Node<T>>, prefix: Key)
    requires NewOnWay(nodes, prefix)
    ensures forall n :: n in nodes ==> !HoldsElements(n)
  {
  }

  /** New nodes of a way: they hold nothing. */
  ghost predicate NewOnWay<T>(nodes: set<Node<T>>, prefix: Key)
    reads nodes`path, nodes`value
  {
    forall n :: n in nodes ==> n.isTrie && n.value == None && n.path <= prefix
  }

  lemma NoneOnWay<T>(prefix: Key)
    ensures NewOnWay<T>({}, prefix)
  {
  }

  lemma OneMoreOnWay<T>(nodes: set<Node<T>>, repr: set<Node<T>>, child: Node<T>, prefix: Key)
    requires NewOnWay(nodes, prefix) && Blank(child) && child.path <= prefix && Clear(repr, prefix)
    ensures NewOnWay(nodes + {child}, prefix) && Clear(repr + {child}, prefix)
  {
  }

  lemma RootOnWay<T>(node: Node<T>, prefix: Key)
    requires Blank(node) && node.path == []
    ensures NewOnWay({node}, prefix) && Clear({node}, prefix)
  {
  }

  lemma NothingYet<T>(t: Htrie<T>)
    requires t.Wf() && t.root == null
    ensures t.repr == {}
  {
  }

  // ---------------------------------------------------------------- records put into a tree

  /** The maps with the first pairs of a leaf. */
  ghost function PlusPairs<T>(contents: map<Key, T>, path: Key, b: Bucket<T>, n: nat): map<Key, T>
    requires n <= |b|
  {
    if n == 0 then contents else PlusPairs(contents, path, b, n - 1)[path + b[n - 1].0 := b[n - 1].1]
  }

  ghost function PlusOwner<T>(owner: map<Key, Node<T>>, b: Bucket<T>, n: nat, path: Key, leaf: Node<T>): map<Key, Node<T>>
    requires n <= |b|
  {
    if n == 0 then owner else PlusOwner(owner, b, n - 1, path, leaf)[path + b[n - 1].0 := leaf]
  }

  /** The pairs are new to the map. */
  ghost predicate AllNew<T>(contents: map<Key, T>, path: Key, b: Bucket<T>) {
    forall i :: 0 <= i < |b| ==> path + b[i].0 !in contents
  }

  /** The maps `c` and `o` hold what `contents` and `owner` hold, and the first n pairs of a leaf. */
  ghost predicate Plus<T>(c: map<Key, T>, o: map<Key, Node<T>>, contents: map<Key, T>, owner: map<Key, Node<T>>,
                          path: Key, b: Bucket<T>, n: nat, leaf: Node<T>)
    requires n <= |b|
  {
    && c.Keys == o.Keys && |c| == |contents| + n
    && Extends(c, contents) && Extends(o, owner)
    && PairsIn(c, o, path, b, n, leaf)
    && NothingElse(o, owner, path, b, n, leaf)
  }

  ghost predicate Extends<V>(after: map<Key, V>, before: map<Key, V>) {
    forall k :: k in before ==> k in after && after[k] == before[k]
  }

  ghost predicate PairsIn<T>(c: map<Key, T>, o: map<Key, Node<T>>, path: Key, b: Bucket<T>, n: nat, leaf: Node<T>)
    requires n <= |b|
  {
    forall i :: 0 <= i < n ==> HoldsPair(c, o, path + b[i].0, b[i].1, leaf)
  }

  ghost predicate HoldsPair<T>(c: map<Key, T>, o: map<Key, Node<T>>, k: Key, v: T, leaf: Node<T>) {
    k in c && k in o && c[k] == v && o[k] == leaf
  }

  ghost predicate NothingElse<T>(o: map<Key, Node<T>>, owner: map<Key, Node<T>>, path: Key, b: Bucket<T>, n: nat, leaf: Node<T>)
    requires n <= |b|
  {
    forall k :: k in o && k !in owner ==> IsPairKey(path, b, n, k) && o[k] == leaf
  }

  ghost predicate IsPairKey<T>(path: Key, b: Bucket<T>, n: nat, k: Key)
    requires n <= |b|
  {
    exists i :: 0 <= i < n && k == path + b[i].0
  }

  lemma PlusStep<T>(c: map<Key, T>, o: map<Key, Node<T>>, contents: map<Key, T>, owner: map<Key, Node<T>>,
                    path: Key, b: Bucket<T>, n: nat, leaf: Node<T>)
    requires n < |b| && DistinctKeys(b) && AllNew(contents, path, b) && contents.Keys == owner.Keys
    requires Plus(c, o, contents, owner, path, b, n, leaf)
    ensures Plus(c[path + b[n].0 := b[n].1], o[path + b[n].0 := leaf], contents, owner, path, b, n + 1, leaf)
  {
    hide PairsIn, Extends, AllNew, DistinctKeys, NothingElse;
    var k := path + b[n].0;
    NewKey(o, contents, owner, path, b, n, leaf);
    assert c[k := b[n].1].Keys == c.Keys + {k} && o[k := leaf].Keys == o.Keys + {k};
    ExtendsOn(c, contents, k, b[n].1);
    ExtendsOn(o, owner, k, leaf);
    PairsInOn(c, o, path, b, n, leaf);
    NothingElseOn(o, owner, path, b, n, leaf);
  }

  lemma NewKey<T>(o: map<Key, Node<T>>, contents: map<Key, T>, owner: map<Key, Node<T>>,
                  path: Key, b: Bucket<T>, n: nat, leaf: Node<T>)
    requires n < |b| && DistinctKeys(b) && AllNew(contents, path, b) && contents.Keys == owner.Keys
    requires NothingElse(o, owner, path, b, n, leaf)
    ensures var k := path + b[n].0; k !in contents && k !in owner && k !in o
  {
    KeyApart(path, b, n);
    assert !IsPairKey(path, b, n, path + b[n].0);
  }

  lemma ExtendsOn<V>(after: map<Key, V>, before: map<Key, V>, k: Key, v: V)
    requires Extends(after, before) && k !in before
    ensures Extends(after[k := v], before)
  {
  }

  lemma PairsInOn<T>(c: map<Key, T>, o: map<Key, Node<T>>, path: Key, b: Bucket<T>, n: nat, leaf: Node<T>)
    requires n < |b| && PairsIn(c, o, path, b, n, leaf) && path + b[n].0 !in o
    ensures PairsIn(c[path + b[n].0 := b[n].1], o[path + b[n].0 := leaf], path, b, n + 1, leaf)
  {
    var k := path + b[n].0;
    var c', o' := c[k := b[n].1], o[k := leaf];
    forall i | 0 <= i < n + 1
      ensures HoldsPair(c', o', path + b[i].0, b[i].1, leaf)
    {
      if i < n {
        assert HoldsPair(c, o, path + b[i].0, b[i].1, leaf);
      }
    }
  }

  lemma NothingElseOn<T>(o: map<Key, Node<T>>, owner: map<Key, Node<T>>, path: Key, b: Bucket<T>, n: nat, leaf: Node<T>)
    requires n < |b| && NothingElse(o, owner, path, b, n, leaf)
    ensures NothingElse(o[path + b[n].0 := leaf], owner, path, b, n + 1, leaf)
  {
    var k := path + b[n].0;
    var o' := o[k := leaf];
    forall l | l in o' && l !in owner
      ensures IsPairKey(path, b, n + 1, l) && o'[l] == leaf
    {
      if l == k {
        assert l == path + b[n].0;
      } else {
        assert IsPairKey(path, b, n, l);
        var i :| 0 <= i < n && l == path + b[i].0;
        assert l == path + b[i].0;
      }
    }
  }

  lemma PlusNone<T>(contents: map<Key, T>, owner: map<Key, Node<T>>, path: Key, b: Bucket<T>, leaf: Node<T>)
    requires contents.Keys == owner.Keys
    ensures Plus(contents, owner, contents, owner, path, b, 0, leaf)
  {
  }

  lemma {:induction false} PlusFacts<T>(contents: map<Key, T>, owner: map<Key, Node<T>>, path: Key, b: Bucket<T>, n: nat, leaf: Node<T>)
    requires n <= |b| && DistinctKeys(b) && AllNew(contents, path, b) && contents.Keys == owner.Keys
    ensures Plus(PlusPairs(contents, path, b, n), PlusOwner(owner, b, n, path, leaf), contents, owner, path, b, n, leaf)
  {
    hide Plus, AllNew, DistinctKeys;
    if n == 0 {
      PlusNone(contents, owner, path, b, leaf);
    } else {
      PlusFacts(contents, owner, path, b, n - 1, leaf);
      PlusStep(PlusPairs(contents, path, b, n - 1), PlusOwner(owner, b, n - 1, path, leaf), contents, owner, path, b, n - 1, leaf);
    }
  }

  lemma KeyApart<T>(path: Key, b: Bucket<T>, n: nat)
    requires n < |b| && DistinctKeys(b)
    ensures forall i :: 0 <= i < n ==> path + b[i].0 != path + b[n].0
  {
    forall i | 0 <= i < n
      ensures path + b[i].0 != path + b[n].0
    {
      assert (path + b[i].0)[|path|..] == b[i].0 && (path + b[n].0)[|path|..] == b[n].0;
    }
  }

  /** A tree's maps with all pairs of a new leaf. */
  lemma FilledWithLeaf<T>(repr: set<Node<T>>, contents: map<Key, T>, owner: map<Key, Node<T>>,
                          c: map<Key, T>, o: map<Key, Node<T>>, leaf: Node<T>)
    requires Htrie.Filled(repr, contents, owner) && leaf !in repr && !leaf.isTrie && leaf.Stocked()
    requires Plus(c, o, contents, owner, leaf.path, leaf.bucket, |leaf.bucket|, leaf)
    ensures Htrie.Filled(repr + {leaf}, c, o)
  {
    var path, b := leaf.path, leaf.bucket;
    forall m | m in repr
      ensures Htrie.Known(m, c, o)
    {
      Htrie.KnownFrame(m, contents, owner, c, o);
    }
    assert Htrie.Known(leaf, c, o) by {
      assert forall i :: 0 <= i < |b| ==> HoldsPair(c, o, path + b[i].0, b[i].1, leaf);
    }
    forall k | k in o
      ensures o[k] in repr + {leaf} && Htrie.Stores(o[k], k)
    {
      if k in owner {
        assert owner[k] in repr && Htrie.Stores(owner[k], k);
      } else {
        var i :| 0 <= i < |b| && k == path + b[i].0;
        assert k[|path|..] == b[i].0;
      }
    }
  }

  /** A new leaf hung into an empty slot. */
  method HangLeaf<T>(ghost root: Node?<T>, ghost repr: set<Node<T>>, n: Node<T>, c: Byte, bucket: Bucket<T>) returns (leaf: Node<T>)
    requires Htrie.Linked(root, repr) && Htrie.Compact(repr, n) && n in repr && n.isTrie && n.children[c] == null
    requires DistinctKeys(bucket) && bucket != []
    modifies n`children
    ensures fresh(leaf) && !leaf.isTrie && leaf.Stocked() && leaf.bucket == bucket && leaf.path == n.path + [c]
    ensures Htrie.Linked(root, repr + {leaf}) && Htrie.Compact(repr + {leaf}, null)
  {
    leaf := new Node.Hash(bucket, n.path + [c]);
    n.SetChild(c, leaf);
    assert n.children[c] != null;
  }

  lemma SlotIsNew<T>(t: Htrie<T>, n: Node<T>, c: Byte, bucket: Bucket<T>)
    requires t.Wf() && n in t.repr && n.isTrie && n.Slotted() && n.children[c] == null
    ensures AllNew(t.contents, n.path + [c], bucket)
  {
    hide Htrie.Linked, Htrie.Filled;
    forall i | 0 <= i < |bucket|
      ensures n.path + [c] + bucket[i].0 !in t.contents
    {
      t.MissingChild(n, n.path + [c] + bucket[i].0, c);
    }
  }

  /** deserialize_impl(), lines 1988-1994: a leaf read back goes into its parent's slot. */
  method AttachLeaf<T>(t: Htrie<T>, n: Node<T>, c: Byte, bucket: Bucket<T>) returns (leaf: Node<T>)
    requires t.Wf() && Htrie.Compact(t.repr, n) && n in t.repr && n.isTrie && n.Slotted() && n.children[c] == null
    requires DistinctKeys(bucket) && bucket != []
    modifies t`repr, t`contents, t`owner, t`nbElements, n`children
    ensures t.Valid() && t.nbElements == old(t.nbElements) + |bucket|
    ensures fresh(leaf) && t.repr == old(t.repr) + {leaf}
    ensures View(t.repr) == old(View(t.repr)) + {HashRecord(n.path + [c], bucket)}
  {
    hide Htrie.Linked, Htrie.Filled, Htrie.Compact, Plus, AllNew, View;
    KeysAgree(t);
    ghost var before := t.repr;
    SlotIsNew(t, n, c, bucket);
    leaf := HangLeaf(t.root, t.repr, n, c, bucket);
    TakeIn(t, leaf);
    ViewAdd(before, leaf);
  }

  lemma FilledKeys<T>(repr: set<Node<T>>, contents: map<Key, T>, owner: map<Key, Node<T>>)
    requires Htrie.Filled(repr, contents, owner)
    ensures contents.Keys == owner.Keys
  {
  }

  lemma PlusSize<T>(c: map<Key, T>, o: map<Key, Node<T>>, contents: map<Key, T>, owner: map<Key, Node<T>>,
                    path: Key, b: Bucket<T>, n: nat, leaf: Node<T>)
    requires n <= |b| && Plus(c, o, contents, owner, path, b, n, leaf)
    ensures |c| == |contents| + n
  {
  }

  /** The maps and the count follow a leaf that was linked in. */
  method TakeIn<T>(t: Htrie<T>, leaf: Node<T>)
    requires Htrie.Linked(t.root, t.repr + {leaf}) && Htrie.Filled(t.repr, t.contents, t.owner) && t.nbElements == |t.contents|
    requires leaf !in t.repr && !leaf.isTrie && leaf.Stocked() && AllNew(t.contents, leaf.path, leaf.bucket)
    modifies t`repr, t`contents, t`owner, t`nbElements
    ensures t.Wf() && t.nbElements == old(t.nbElements) + |leaf.bucket| && t.repr == old(t.repr) + {leaf}
  {
    hide Htrie.Linked, Htrie.Filled, AllNew, Plus, PlusPairs, PlusOwner;
    FilledKeys(t.repr, t.contents, t.owner);
    ghost var c := PlusPairs(t.contents, leaf.path, leaf.bucket, |leaf.bucket|);
    ghost var o := PlusOwner(t.owner, leaf.bucket, |leaf.bucket|, leaf.path, leaf);
    PlusFacts(t.contents, t.owner, leaf.path, leaf.bucket, |leaf.bucket|, leaf);
    FilledWithLeaf(t.repr, t.contents, t.owner, c, o, leaf);
    PlusSize(c, o, t.contents, t.owner, leaf.path, leaf.bucket, |leaf.bucket|, leaf);
    t.repr, t.contents, t.owner := t.repr + {leaf}, c, o;
    t.nbElements := t.nbElements + |leaf.bucket|;
  }

  /** deserialize_impl(), lines 1976-1981: the whole tree is one leaf. */
  method RootLeaf<T>(t: Htrie<T>, bucket: Bucket<T>) returns (leaf: Node<T>)
    requires t.Wf() && t.root == null && DistinctKeys(bucket) && bucket != []
    modifies t`root, t`repr, t`contents, t`owner, t`nbElements
    ensures t.Valid() && t.nbElements == old(t.nbElements) + |bucket|
    ensures fresh(leaf) && t.repr == {leaf} && View(t.repr) == {HashRecord([], bucket)}
  {
    NothingYet(t);
    leaf := new Node.Hash(bucket, []);
    assert t.contents.Keys == {};
    t.root := leaf;
    assert Htrie.Linked(t.root, t.repr + {leaf});
    hide Htrie.Linked, Htrie.Filled;
    TakeIn(t, leaf);
    ViewAdd({}, leaf);
    assert {} + {leaf} == t.repr;
  }

  /** deserialize_impl(), lines 1967-1970: a value read back goes into its trie node. */
  method TakeInValue<T>(t: Htrie<T>, n: Node<T>, v: T)
    requires t.Wf() && Htrie.Compact(t.repr, n) && n in t.repr && n.isTrie && n.value == None
    modifies n`value, t`contents, t`owner, t`nbElements
    ensures t.Valid() && t.nbElements == old(t.nbElements) + 1
    ensures View(t.repr) == old(View(t.repr)) + {TrieRecord(n.path, v)}
  {
    hide Htrie.Linked, Htrie.Filled, Htrie.Compact, View;
    t.ValueFacts(n);
    ghost var others := t.repr - {n};
    assert t.repr == others + {n};
    ViewGrows(others, {n});
    PutValue(t.repr, t.contents, t.owner, n, v);
    t.contents, t.owner := t.contents[n.path := v], t.owner[n.path := n];
    t.nbElements := t.nbElements + 1;
    ViewAdd(others, n);
  }

  method PutValue<T>(ghost repr: set<Node<T>>, ghost contents: map<Key, T>, ghost owner: map<Key, Node<T>>, n: Node<T>, v: T)
    requires Htrie.Filled(repr, contents, owner) && Htrie.Compact(repr, n)
    requires n in repr && n.isTrie && n.value == None && n.path !in contents
    modifies n`value
    ensures Htrie.Filled(repr, contents[n.path := v], owner[n.path := n]) && Htrie.Compact(repr, null)
    ensures n.value == Some(v)
  {
    assert Htrie.Known(n, contents, owner);
    assert forall l :: l in owner ==> Htrie.Stores(owner[l], l);
    n.value := Some(v);
    assert Htrie.Known(n, contents[n.path := v], owner[n.path := n]) && Htrie.Stores(n, n.path);
    Htrie.FilledAdd(repr, contents, owner, n, n.path, v);
    assert repr + {n} == repr;
  }

  // ---------------------------------------------------------------- what a tree holds, as records

  /** The same record, but for the order of the pairs of a leaf. */
  ghost predicate Alike<T(!new)>(x: Record<T>, r: Record<T>) {
    x.prefix == r.prefix && x.TrieRecord? == r.TrieRecord? &&
    if x.TrieRecord? then x.value == r.value else SamePairs(x.bucket, r.bucket)
  }

  ghost predicate AmongRecords<T(!new)>(x: Record<T>, records: seq<Record<T>>) {
    exists i :: 0 <= i < |records| && Alike(x, records[i])
  }

  ghost predicate InView<T(!new)>(r: Record<T>, view: set<Record<T>>) {
    exists x :: x in view && Alike(x, r)
  }

  /** The tree holds the records, all of them and nothing else. */
  ghost predicate Describes<T(!new)>(view: set<Record<T>>, records: seq<Record<T>>) {
    && (forall x :: x in view ==> AmongRecords(x, records))
    && (forall i :: 0 <= i < |records| ==> InView(records[i], view))
  }

  lemma DescribesNothing<T(!new)>()
    ensures Describes<T>({}, [])
  {
  }

  lemma DescribesStep<T(!new)>(view: set<Record<T>>, done: seq<Record<T>>, r: Record<T>, x: Record<T>)
    requires Describes(view, done) && Alike(x, r)
    ensures Describes(view + {x}, done + [r])
  {
    hide Alike, AmongRecords, InView;
    var after := done + [r];
    assert after[|done|] == r;
    forall y | y in view + {x}
      ensures AmongRecords(y, after)
    {
      AmongMore(y, x, done, r);
    }
    forall i | 0 <= i < |after|
      ensures InView(after[i], view + {x})
    {
      InMore(after[i], view, x);
      assert i < |done| ==> after[i] == done[i];
    }
  }

  lemma AmongMore<T(!new)>(y: Record<T>, x: Record<T>, done: seq<Record<T>>, r: Record<T>)
    requires Alike(x, r)
    ensures AmongRecords(y, done) || y == x ==> AmongRecords(y, done + [r])
  {
    hide Alike;
    assert (done + [r])[|done|] == r;
    if AmongRecords(y, done) {
      var i :| 0 <= i < |done| && Alike(y, done[i]);
      assert (done + [r])[i] == done[i];
    }
  }

  lemma InMore<T(!new)>(r: Record<T>, view: set<Record<T>>, x: Record<T>)
    ensures InView(r, view) || Alike(x, r) ==> InView(r, view + {x})
  {
    hide Alike;
    if InView(r, view) {
      var y :| y in view && Alike(y, r);
      assert y in view + {x};
    }
    assert x in view + {x};
  }

  /** A record that can be put into a tree that holds the view. */
  ghost predicate Fits<T>(view: set<Record<T>>, r: Record<T>) {
    && (forall x :: x in view ==> Apart(x, r))
    && Size(r) > 0 && (r.HashRecord? ==> DistinctKeys(r.bucket))
  }

  lemma NextFits<T(!new)>(view: set<Record<T>>, records: seq<Record<T>>, i: nat, x: Record<T>)
    requires Consistent(records) && i < |records| && Describes(view, records[..i]) && Alike(x, records[i])
    ensures Fits(view, x)
  {
    forall y | y in view
      ensures Apart(y, x)
    {
      assert AmongRecords(y, records[..i]);
      var j :| 0 <= j < i && Alike(y, records[..i][j]);
      assert Apart(records[j], records[i]);
    }
  }

  /** Part of what serialize_impl() writes down, said of the whole tree at once. */
  lemma RecordedDescribes<T(!new)>(t: Htrie<T>, records: seq<Record<T>>)
    requires Covered(t, records, null) && Sourced(t, records, null)
    ensures Describes(View(t.repr), records)
  {
    forall x | x in View(t.repr)
      ensures AmongRecords(x, records)
    {
      var n :| n in t.repr && HoldsElements(n) && RecordOf(n) == x;
      assert Holder(t, n) && Until(n, null) && InRecords(n, records);
      var i :| 0 <= i < |records| && Matches(n, records[i]);
      assert Alike(x, records[i]);
    }
    forall i | 0 <= i < |records|
      ensures InView(records[i], View(t.repr))
    {
      assert HasSource(t, records[i], null);
      var m :| m in t.repr && IsSource(t, records[i], null, m);
      assert RecordOf(m) in View(t.repr) && Alike(RecordOf(m), records[i]);
    }
  }

  /** What a record that fits finds: its way is clear of leaves, and its place is free. */
  lemma PlaceFree<T>(t: Htrie<T>, r: Record<T>, path: Key)
    requires t.Valid() && Fits(View(t.repr), r) && path <= r.prefix
    ensures Clear(t.repr, path)
    ensures forall n :: n in t.repr && n.path == r.prefix && n.isTrie ==> n.value == None
    ensures r.HashRecord? ==> forall n :: n in t.repr ==> !(r.prefix <= n.path)
  {
    hide Htrie.Linked, Htrie.Filled, Htrie.Compact;
    forall n | n in t.repr && !n.isTrie
      ensures !(n.path <= path)
    {
      assert RecordOf(n) in View(t.repr);
    }
    forall n | n in t.repr && HoldsElements(n)
      ensures n.path != r.prefix
    {
      assert RecordOf(n) in View(t.repr);
    }
    if r.HashRecord? {
      forall n | n in t.repr
        ensures !(r.prefix <= n.path)
      {
        var m := HolderBelow(t, n);
        assert RecordOf(m) in View(t.repr);
      }
    }
  }

  lemma NoValueYet<T>(start: set<Node<T>>, more: set<Node<T>>, prefix: Key, node: Node<T>)
    requires node in start + more && node.isTrie && node.path == prefix && NewOnWay(more, prefix)
    requires forall n :: n in start && n.path == prefix && n.isTrie ==> n.value == None
    ensures node.value == None
  {
  }

  lemma BucketFits<T>(view: set<Record<T>>, r: Record<T>)
    requires Fits(view, r) && r.HashRecord?
    ensures DistinctKeys(r.bucket) && r.bucket != [] && Size(r) == |r.bucket|
  {
  }

  lemma NoRootYet<T>(t: Htrie<T>)
    requires t.Valid() && forall n :: n in t.repr ==> !([] <= n.path)
    ensures t.root == null && View(t.repr) == {}
  {
    assert forall n :: n in t.repr ==> [] <= n.path;
    assert t.repr == {};
  }

  /** No node is where a leaf goes: the old ones are not there, the new ones are above. */
  lemma SlotFree<T>(t: Htrie<T>, start: set<Node<T>>, node: Node<T>, prefix: Key)
    requires prefix != [] && t.Wf() && node in t.repr && node.isTrie && node.path == prefix[..|prefix| - 1]
    requires forall n :: n in start ==> !(prefix <= n.path)
    requires NewOnWay(t.repr - start, prefix[..|prefix| - 1])
    ensures node.Slotted() && node.children[prefix[|prefix| - 1]] == null
  {
    ChildOnWay(t, node, prefix[|prefix| - 1]);
    assert node.path + [prefix[|prefix| - 1]] == prefix;
    forall n | n in t.repr
      ensures n.path != prefix
    {
      assert n in start || n in t.repr - start;
    }
  }

  lemma ChildOnWay<T>(t: Htrie<T>, node: Node<T>, c: Byte)
    requires t.Wf() && node in t.repr && node.isTrie
    ensures node.Slotted()
    ensures node.children[c] != null ==> node.children[c] in t.repr && node.children[c].path == node.path + [c]
  {
  }

  /** deserialize_impl(), lines 1959-1995: what one turn of the loop does with the record it read. */
  method PutRecord<T>(t: Htrie<T>, r: Record<T>)
    requires t.Valid() && Fits(View(t.repr), r)
    modifies t`root, t`repr, t`contents, t`owner, t`nbElements, t.repr`children, t.repr`value
    ensures t.Valid() && fresh(t.repr - old(t.repr))
    ensures View(t.repr) == old(View(t.repr)) + {r} && t.nbElements == old(t.nbElements) + Size(r)
  {
    hide Htrie.Linked, Htrie.Filled, Htrie.Compact, View, Clear, NewOnWay, Fits;
    match r {
      case TrieRecord(prefix, value) =>
        PlaceFree(t, r, prefix);
        ghost var start := t.repr;
        var node := InsertPrefixTrieNodes(t, prefix);
        NoValueYet(start, t.repr - start, prefix, node);
        TakeInValue(t, node, value);
      case HashRecord(prefix, bucket) =>
        PlaceFree(t, r, prefix);
        BucketFits(View(t.repr), r);
        if |prefix| == 0 {
          NoRootYet(t);
          var leaf := RootLeaf(t, bucket);
        } else {
          var last := |prefix| - 1;
          PlaceFree(t, r, prefix[..last]);
          ghost var start := t.repr;
          var node := InsertPrefixTrieNodes(t, prefix[..last]);
          SlotFree(t, start, node, prefix);
          assert prefix[..last] + [prefix[last]] == prefix;
          var leaf := AttachLeaf(t, node, prefix[last], bucket);
        }
    }
  }

  // ---------------------------------------------------------------- reading

  class Reader<T(!new)> {
    const tokens: seq<Token<T>>
    var at: nat

    constructor (tokens: seq<Token<T>>)
      ensures Rest() == tokens
    {
      this.tokens, at := tokens, 0;
    }

    /** What is left to read. */
    ghost function Rest(): seq<Token<T>>
      reads this
    {
      if at <= |tokens| then tokens[at..] else []
    }

    method Left() returns (rest: seq<Token<T>>)
      ensures rest == Rest()
    {
      rest := if at <= |tokens| then tokens[at..] else [];
    }

    method ReadNumber(ghost n: nat, ghost more: seq<Token<T>>) returns (x: nat)
      requires Rest() == [Number(n)] + more
      modifies this
      ensures x == n && Rest() == more
    {
      assert tokens[at] == Rest()[0] == Number(n);
      x := tokens[at].n;
      at := at + 1;
      assert Rest() == old(Rest())[1..];
    }

    method ReadChar(ghost c: Byte, ghost more: seq<Token<T>>) returns (x: Byte)
      requires Rest() == [Char(c)] + more
      modifies this
      ensures x == c && Rest() == more
    {
      assert tokens[at] == Rest()[0] == Char(c);
      x := tokens[at].c;
      at := at + 1;
      assert Rest() == old(Rest())[1..];
    }

    method ReadChars(size: nat, ghost s: Key, ghost more: seq<Token<T>>) returns (x: Key)
      requires Rest() == Chars(s) + more && size == |s|
      modifies this
      ensures x == s && Rest() == more
    {
      x := [];
      for i := 0 to size
        invariant x == s[..i] && Rest() == Chars(s[i..]) + more
      {
        CharsFirst<T>(s[i..]);
        assert s[i..][1..] == s[i + 1..] && [Char(s[i])] + Chars(s[i + 1..]) + more == [Char(s[i])] + (Chars(s[i + 1..]) + more);
        var c := ReadChar(s[i], Chars(s[i + 1..]) + more);
        x := x + [c];
      }
      assert s[size..] == [] && Chars<T>([]) + more == more;
    }

    method ReadValue(ghost v: T, ghost more: seq<Token<T>>) returns (x: T)
      requires Rest() == [Value(v)] + more
      modifies this
      ensures x == v && Rest() == more
    {
      assert tokens[at] == Rest()[0] == Value(v);
      x := tokens[at].v;
      at := at + 1;
      assert Rest() == old(Rest())[1..];
    }

    /** A leaf read back: the same pairs, in the order the hash gives them. */
    method ReadPairs(ghost b: Bucket<T>, ghost more: seq<Token<T>>) returns (x: Bucket<T>)
      requires Rest() == [Pairs(b)] + more && DistinctKeys(b)
      modifies this
      ensures SamePairs(x, b) && Rest() == more
    {
      assert tokens[at] == Rest()[0] == Pairs(b);
      x := Rehash(tokens[at].b);
      at := at + 1;
      assert Rest() == old(Rest())[1..];
    }

    /** deserialize_impl(), lines 1950-1990: one record. */
    method ReadRecord(ghost r: Record<T>, ghost more: seq<Token<T>>) returns (x: Record<T>)
      requires Rest() == Encoded(r) + more && (r.HashRecord? ==> DistinctKeys(r.bucket))
      modifies this
      ensures Alike(x, r) && Rest() == more
    {
      hide SamePairs, DistinctKeys, Rest;
      ghost var marker := if r.TrieRecord? then TRIE_NODE else HASH_NODE;
      ghost var last: Token<T> := if r.TrieRecord? then Value(r.value) else Pairs(r.bucket);
      ghost var p := r.prefix;
      EncodedParts(r, marker, last, more);
      var nodeType := ReadChar(marker, [Number(|p|)] + (Chars(p) + ([last] + more)));
      var size := ReadNumber(|p|, Chars(p) + ([last] + more));
      var prefix := ReadChars(size, p, [last] + more);
      if nodeType == TRIE_NODE {
        var v := ReadValue(r.value, more);
        x := TrieRecord(prefix, v);
      } else {
        var b := ReadPairs(r.bucket, more);
        x := HashRecord(prefix, b);
      }
    }
  }

  /** Pairs put one after another into an empty leaf. */
  method Rehash<T(!new)>(b: Bucket<T>) returns (x: Bucket<T>)
    requires DistinctKeys(b)
    ensures SamePairs(x, b)
  {
    x := [];
    for i := 0 to |b|
      invariant DistinctKeys(x) && |x| == i
      invariant forall e :: e in x <==> e in b[..i]
    {
      var (k, v) := b[i];
      forall j | 0 <= j < |x|
        ensures x[j].0 != k
      {
        assert x[j] in b[..i];
      }
      var before := x;
      var y, at, inserted := Emplace(x, k, v);
      InsertedPairs(before, y, at, (k, v));
      x := y;
      assert b[..i + 1] == b[..i] + [(k, v)];
    }
    assert b[..|b|] == b;
  }

  lemma InsertedPairs<T(!new)>(b: Bucket<T>, c: Bucket<T>, at: nat, e: (Key, T))
    requires at <= |b| && c == b[..at] + [e] + b[at..]
    ensures forall f :: f in c <==> f in b || f == e
  {
    assert b == b[..at] + b[at..];
  }

  lemma CharsFirst<T>(s: Key)
    requires s != []
    ensures Chars<T>(s) == [Char(s[0])] + Chars(s[1..])
  {
  }

  lemma EncodedParts<T>(r: Record<T>, marker: Byte, last: Token<T>, more: seq<Token<T>>)
    requires marker == if r.TrieRecord? then TRIE_NODE else HASH_NODE
    requires last == if r.TrieRecord? then Value(r.value) else Pairs(r.bucket)
    ensures Encoded(r) + more == [Char(marker)] + ([Number(|r.prefix|)] + (Chars(r.prefix) + ([last] + more)))
  {
  }

  lemma HeaderParts<T>(version: nat, nbElements: nat, threshold: nat, rest: seq<Token<T>>)
    ensures Header(version, nbElements, threshold) + rest == [Number(version)] + ([Number(nbElements)] + ([Number(threshold)] + rest))
  {
  }

  lemma NothingInside<T>(t: Htrie<T>)
    requires t.Valid() && t.root == null
    ensures t.repr == {} && t.nbElements == 0 && View(t.repr) == {}
  {
    assert t.contents.Keys == {};
  }

  lemma AlikeSize<T(!new)>(x: Record<T>, r: Record<T>)
    requires Alike(x, r)
    ensures Size(x) == Size(r)
  {
  }

  /** As long as elements are missing there is a record to read. */
  lemma OneMore<T>(records: seq<Record<T>>, i: nat, more: seq<Token<T>>)
    requires Consistent(records) && i <= |records| && Total(records[i..]) > 0
    ensures i < |records| && Total(records[i..]) == Size(records[i]) + Total(records[i + 1..]) && Size(records[i]) > 0
    ensures records[i].HashRecord? ==> DistinctKeys(records[i].bucket)
    ensures AllEncoded(records[i..]) + more == Encoded(records[i]) + (AllEncoded(records[i + 1..]) + more)
  {
    hide Encoded, DistinctKeys;
    if i < |records| {
      assert records[i..][1..] == records[i + 1..];
    }
  }

  /** When all elements are there, all records are read. */
  lemma NoMore<T>(records: seq<Record<T>>, i: nat, more: seq<Token<T>>)
    requires Consistent(records) && i <= |records| && Total(records[i..]) == 0
    ensures i == |records| && records[..i] == records && AllEncoded(records[i..]) + more == more
  {
    forall j: nat | j < |records|
      ensures Total(records[j..]) > 0
    {
      StillSome(records, j);
    }
  }

  lemma StillSome<T>(records: seq<Record<T>>, i: nat)
    requires Consistent(records) && i < |records|
    ensures Total(records[i..]) > 0
  {
    assert records[i..][0] == records[i] && Size(records[i]) > 0;
  }

  /** One turn of the loop of deserialize_impl(). */
  method TakeRecord<T(!new)>(reader: Reader<T>, t: Htrie<T>, ghost records: seq<Record<T>>, ghost i: nat, ghost more: seq<Token<T>>)
    requires t.Valid() && Consistent(records) && i <= |records| && Total(records[i..]) > 0
    requires Describes(View(t.repr), records[..i]) && reader.Rest() == AllEncoded(records[i..]) + more
    modifies reader, t`root, t`repr, t`contents, t`owner, t`nbElements, t.repr`children, t.repr`value
    ensures i < |records| && t.Valid() && fresh(t.repr - old(t.repr))
    ensures t.nbElements + Total(records[i + 1..]) == old(t.nbElements) + Total(records[i..]) && t.nbElements > old(t.nbElements)
    ensures Describes(View(t.repr), records[..i + 1]) && reader.Rest() == AllEncoded(records[i + 1..]) + more
  {
    hide Htrie.Linked, Htrie.Filled, Htrie.Compact, View, Describes, Consistent, AllEncoded, Total, Encoded, Reader.Rest;
    OneMore(records, i, more);
    var r := reader.ReadRecord(records[i], AllEncoded(records[i + 1..]) + more);
    NextFits(View(t.repr), records, i, r);
    AlikeSize(r, records[i]);
    DescribesStep(View(t.repr), records[..i], records[i], r);
    PutRecord(t, r);
    assert records[..i] + [records[i]] == records[..i + 1];
  }

  /** No recorded leaf holds more than `limit` pairs. */
  ghost predicate RecordsWithin<T>(records: seq<Record<T>>, limit: nat) {
    forall i :: 0 <= i < |records| && records[i].HashRecord? ==> |records[i].bucket| <= limit
  }

  /** The leaves of a tree are as large as they are recorded. */
  lemma LeavesAsRecorded<T(!new)>(repr: set<Node<T>>, records: seq<Record<T>>)
    requires Describes(View(repr), records) && forall n :: n in repr && n.isTrie ==> n.bucket == []
    ensures forall limit: nat :: RecordsWithin(records, limit) <==> Htrie.LeavesWithin(repr, limit)
  {
    forall limit: nat
      ensures RecordsWithin(records, limit) <==> Htrie.LeavesWithin(repr, limit)
    {
      if RecordsWithin(records, limit) {
        forall n | n in repr && !n.isTrie
          ensures |n.bucket| <= limit
        {
          assert RecordOf(n) in View(repr) && AmongRecords(RecordOf(n), records);
        }
      }
      if Htrie.LeavesWithin(repr, limit) {
        forall i | 0 <= i < |records| && records[i].HashRecord?
          ensures |records[i].bucket| <= limit
        {
          assert InView(records[i], View(repr));
        }
      }
    }
  }

  lemma TrieNodesBare<T>(t: Htrie<T>)
    requires t.Wf()
    ensures forall n :: n in t.repr && n.isTrie ==> n.bucket == []
  {
    forall n | n in t.repr && n.isTrie
      ensures n.bucket == []
    {
      HolderStocked(t, n);
    }
  }

  /** deserialize_impl(): into an empty tree, from a stream that holds a header, records and perhaps more. */
  method Deserialize<T(!new)>(reader: Reader<T>, t: Htrie<T>, ghost version: nat, ghost nbElements: nat, ghost threshold: nat,
                              ghost records: seq<Record<T>>, ghost more: seq<Token<T>>) returns (ok: bool)
    requires t.Valid() && t.root == null
    requires reader.Rest() == Header(version, nbElements, threshold) + AllEncoded(records) + more
    requires Consistent(records) && Total(records) == nbElements
    modifies reader, t
    ensures ok <==> version == SERIALIZATION_PROTOCOL_VERSION
    ensures ok ==> t.Valid() && t.nbElements == nbElements && Describes(View(t.repr), records)
    ensures ok ==> reader.Rest() == more && fresh(t.repr)
    ensures ok ==> forall limit: nat :: RecordsWithin(records, limit) ==> Htrie.LeavesWithin(t.repr, limit)
    ensures ok ==> t.burstThreshold == if threshold < MIN_BURST_THRESHOLD then MIN_BURST_THRESHOLD else threshold
  {
    hide Htrie.Linked, Htrie.Filled, Htrie.Compact, View, Describes, Consistent, AllEncoded, Total, Encoded, Reader.Rest, Header;
    HeaderParts(version, nbElements, threshold, AllEncoded(records) + more);
    assert Header(version, nbElements, threshold) + AllEncoded(records) + more
      == Header(version, nbElements, threshold) + (AllEncoded(records) + more);
    var readVersion := reader.ReadNumber(version, [Number(nbElements)] + ([Number(threshold)] + (AllEncoded(records) + more)));
    if readVersion != SERIALIZATION_PROTOCOL_VERSION {
      return false;
    }
    var nb := reader.ReadNumber(nbElements, [Number(threshold)] + (AllEncoded(records) + more));
    var th := reader.ReadNumber(threshold, AllEncoded(records) + more);
    t.burstThreshold := if th < MIN_BURST_THRESHOLD then MIN_BURST_THRESHOLD else th;
    NothingInside(t);
    DescribesNothing<T>();
    ghost var i := 0;
    assert records[..0] == [] && records[0..] == records;
    while t.nbElements < nb
      invariant i <= |records| && t.Valid() && fresh(t.repr)
      invariant t.nbElements + Total(records[i..]) == nb
      invariant Describes(View(t.repr), records[..i])
      invariant reader.Rest() == AllEncoded(records[i..]) + more
      invariant t.burstThreshold == if threshold < MIN_BURST_THRESHOLD then MIN_BURST_THRESHOLD else threshold
      decreases nb - t.nbElements
    {
      TakeRecord(reader, t, records, i, more);
      i := i + 1;
    }
    NoMore(records, i, more);
    TrieNodesBare(t);
    LeavesAsRecorded(t.repr, records);
    ok := true;
  }

  // ---------------------------------------------------------------- the same tree

  /** Two nodes at one place that hold the same. */
  ghost predicate SameNode<T(!new)>(n: Node<T>, m: Node<T>)
    reads n`path, n`value, n`bucket, m`path, m`value, m`bucket
  {
    n.path == m.path && n.isTrie == m.isTrie && n.value == m.value && (!n.isTrie ==> SamePairs(n.bucket, m.bucket))
  }

  ghost predicate HasNode<T(!new)>(n: Node<T>, repr: set<Node<T>>)
    reads n`path, n`value, n`bucket, repr`path, repr`value, repr`bucket
  {
    exists m :: m in repr && SameNode(n, m)
  }

  /** For every node of the one tree there is the same in the other. */
  ghost predicate SameShape<T(!new)>(repr: set<Node<T>>, repr': set<Node<T>>)
    reads repr`path, repr`value, repr`bucket, repr'`path, repr'`value, repr'`bucket
  {
    forall n :: n in repr ==> HasNode(n, repr')
  }

  /** A node with elements has its like in every tree that holds the same records. */
  lemma LikeHolder<T(!new)>(t: Htrie<T>, u: Htrie<T>, records: seq<Record<T>>, n: Node<T>) returns (m: Node<T>)
    requires t.Wf() && u.Wf() && n in t.repr && HoldsElements(n)
    requires Describes(View(t.repr), records) && Describes(View(u.repr), records)
    ensures m in u.repr && HoldsElements(m) && SameNode(n, m)
  {
    hide Htrie.Linked, Htrie.Filled, Describes, Alike, SameNode;
    assert RecordOf(n) in View(t.repr);
    var r, y := LikeRecord(View(t.repr), View(u.repr), records, RecordOf(n));
    m :| m in u.repr && HoldsElements(m) && RecordOf(m) == y;
    HolderStocked(t, n);
    HolderStocked(u, m);
    LikeNodes(n, m, r);
  }

  lemma LikeRecord<T(!new)>(view: set<Record<T>>, other: set<Record<T>>, records: seq<Record<T>>, x: Record<T>)
    returns (r: Record<T>, y: Record<T>)
    requires Describes(view, records) && Describes(other, records) && x in view
    ensures y in other && Alike(x, r) && Alike(y, r)
  {
    hide Alike;
    assert AmongRecords(x, records);
    var i :| 0 <= i < |records| && Alike(x, records[i]);
    r := records[i];
    assert InView(r, other);
    y :| y in other && Alike(y, r);
  }

  lemma LikeNodes<T(!new)>(n: Node<T>, m: Node<T>, r: Record<T>)
    requires HoldsElements(n) && HoldsElements(m) && n.Stocked() && m.Stocked()
    requires Alike(RecordOf(n), r) && Alike(RecordOf(m), r)
    ensures SameNode(n, m)
  {
  }

  /** A trie node without a value is in the other tree too: it is on the way to some element. */
  lemma LikeWay<T(!new)>(t: Htrie<T>, u: Htrie<T>, records: seq<Record<T>>, n: Node<T>) returns (a: Node<T>)
    requires t.Valid() && u.Wf() && n in t.repr && !HoldsElements(n)
    requires Describes(View(t.repr), records) && Describes(View(u.repr), records)
    ensures a in u.repr && SameNode(n, a)
  {
    hide Htrie.Linked, Htrie.Filled, Htrie.Compact, Describes, View;
    var h := HolderBelow(t, n);
    WayDown(t, n, h);
    var m := LikeHolder(t, u, records, h);
    a := u.Ancestor(m, |n.path|);
    assert a.path == n.path;
    if a.value.Some? {
      var b := LikeHolder(u, t, records, a);
      t.Unique(b, n);
    }
  }

  lemma SameShapes<T(!new)>(t: Htrie<T>, u: Htrie<T>, records: seq<Record<T>>)
    requires t.Valid() && u.Valid()
    requires Describes(View(t.repr), records) && Describes(View(u.repr), records)
    ensures SameShape(t.repr, u.repr)
  {
    hide Htrie.Linked, Htrie.Filled, Htrie.Compact, Describes, View, SameNode;
    forall n | n in t.repr
      ensures HasNode(n, u.repr)
    {
      if HoldsElements(n) {
        var m := LikeHolder(t, u, records, n);
      } else {
        var m := LikeWay(t, u, records, n);
      }
    }
  }

  /** What one tree's map holds, the other's holds. */
  lemma SameElement<T(!new)>(t: Htrie<T>, u: Htrie<T>, records: seq<Record<T>>, k: Key)
    requires t.Wf() && u.Wf() && k in t.contents
    requires Describes(View(t.repr), records) && Describes(View(u.repr), records)
    ensures k in u.contents && u.contents[k] == t.contents[k]
  {
    hide Htrie.Linked, Describes, View;
    OwnerHolds(t, k);
    var n := t.owner[k];
    var m := LikeHolder(t, u, records, n);
    assert Htrie.Known(n, t.contents, t.owner) && Htrie.Known(m, u.contents, u.owner);
    if !n.isTrie {
      var i :| 0 <= i < |n.bucket| && k == n.path + n.bucket[i].0;
      assert n.bucket[i] in m.bucket;
      var j :| 0 <= j < |m.bucket| && m.bucket[j] == n.bucket[i];
      assert m.path + m.bucket[j].0 == k;
    }
  }

  lemma SameMap<T(!new)>(t: Htrie<T>, u: Htrie<T>, records: seq<Record<T>>)
    requires t.Wf() && u.Wf()
    requires Describes(View(t.repr), records) && Describes(View(u.repr), records)
    ensures t.contents == u.contents
  {
    hide Htrie.Linked, Htrie.Filled, Describes, View;
    forall k | k in t.contents
      ensures k in u.contents && u.contents[k] == t.contents[k]
    {
      SameElement(t, u, records, k);
    }
    forall k | k in u.contents
      ensures k in t.contents
    {
      SameElement(u, t, records, k);
    }
  }

  /** Two well-formed trees with the same records and threshold: the same map, the same nodes, and the one keeps to the
      threshold if the other does. */
  lemma SameTree<T(!new)>(t: Htrie<T>, u: Htrie<T>, records: seq<Record<T>>)
    requires t.Valid() && u.Valid() && u.burstThreshold == t.burstThreshold
    requires Describes(View(t.repr), records) && Describes(View(u.repr), records)
    ensures t.contents == u.contents && SameShape(t.repr, u.repr) && SameShape(u.repr, t.repr)
    ensures t.Invariant() <==> u.Invariant()
  {
    hide Htrie.Linked, Htrie.Filled, Htrie.Compact, Htrie.LeavesWithin, View, Describes, SameShape;
    SameShapes(t, u, records);
    SameShapes(u, t, records);
    SameMap(t, u, records);
    TrieNodesBare(t);
    TrieNodesBare(u);
    LeavesAsRecorded(t.repr, records);
    LeavesAsRecorded(u.repr, records);
  }

  /** Main statement: a tree written down and read back into an empty one is the same map in the same nodes, and
      the reader stops exactly where the writer stopped. */
  method RoundTrip<T(!new)>(t: Htrie<T>, u: Htrie<T>, more: seq<Token<T>>) returns (rest: seq<Token<T>>)
    requires t.Valid() && MIN_BURST_THRESHOLD <= t.burstThreshold && u.Valid() && u.root == null && t != u
    modifies u
    ensures fresh(u.repr) && (t.Invariant() ==> u.Invariant())
    ensures t.Valid() && u.Valid() && u.contents == t.contents && u.nbElements == t.nbElements
    ensures SameShape(t.repr, u.repr) && SameShape(u.repr, t.repr)
    ensures u.burstThreshold == t.burstThreshold && rest == more
  {
    hide Htrie.Linked, Htrie.Filled, Htrie.Compact, Htrie.LeavesWithin, View, Describes, Consistent, AllEncoded, Total, Recorded, Reader.Rest, Header, SameShape, RecordsWithin;
    var tokens;
    ghost var records;
    tokens, records := Serialize(t);
    RecordedAll(t, records);
    var reader := new Reader(tokens + more);
    var ok := Deserialize(reader, u, SERIALIZATION_PROTOCOL_VERSION, t.nbElements, t.burstThreshold, records, more);
    SameTree(t, u, records);
    rest := reader.Left();
  }

  lemma RecordedAll<T(!new)>(t: Htrie<T>, records: seq<Record<T>>)
    requires t.Valid() && Recorded(t, records, null)
    ensures Consistent(records) && Describes(View(t.repr), records)
  {
    hide Htrie.Linked, Htrie.Filled, Htrie.Compact, View, Describes, Consistent, Covered, Sourced;
    RecordsConsistent(t, records);
    RecordedDescribes(t, records);
  }
}
