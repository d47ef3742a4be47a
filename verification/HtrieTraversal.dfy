/**
 What walking from begin() to end() meets (inc/tsl/htrie_hash.h:619-704, 794-844, 1255-1271): every
 stored key once.
 */
module HtrieTraversal {
  import opened HtrieNode
  import opened KeyOrder
  import opened Htrie
  import opened HtrieIterator

  /** `k` is at the element `it` stands at, or at a later one. */
  ghost predicate Ahead<T>(t: Htrie<T>, it: Iterator<T>, k: Key)
    requires (IsEnd(it) || Standing(t, it)) && k in t.owner
    reads t, t.repr, t.owner.Values
  {
    && !IsEnd(it)
    && var o, n := t.owner[k], NodeOf(t, it);
       || Before(n.path, o.path)
       || (o == n && (n.isTrie || exists i :: it.index <= i < |n.bucket| && k == n.path + n.bucket[i].0))
  }

  /** The keys that an iterator has still to meet. */
  ghost function Remaining<T>(t: Htrie<T>, it: Iterator<T>): set<Key>
    requires IsEnd(it) || Standing(t, it)
    reads t, t.repr, t.owner.Values
  {
    set k | k in t.owner && Ahead(t, it, k)
  }

  lemma KeysAgree<T>(t: Htrie<T>)
    requires t.Wf()
    ensures t.contents.Keys == t.owner.Keys && t.nbElements == |t.contents|
  {
  }

  lemma NothingAhead<T>(t: Htrie<T>, it: Iterator<T>)
    requires IsEnd(it)
    ensures Remaining(t, it) == {}
  {
  }

  lemma OwnerHolds<T>(t: Htrie<T>, k: Key)
    requires t.Wf() && k in t.contents
    ensures t.owner[k] in t.repr && Holder(t, t.owner[k])
    ensures var o := t.owner[k];
      if o.isTrie then k == o.path else exists i :: 0 <= i < |o.bucket| && k == o.path + o.bucket[i].0
  {
    var o := t.owner[k];
    if !o.isTrie {
      var i :| 0 <= i < |o.bucket| && o.bucket[i].0 == k[|o.path|..];
      assert k == o.path + o.bucket[i].0;
    }
  }

  /** An iterator that starts at the holder `r` has `r` and all later holders ahead. */
  lemma AheadFromStart<T>(t: Htrie<T>, it: Iterator<T>, r: Node<T>, k: Key)
    requires t.Wf() && k in t.contents && r in t.repr && StartsAt(it, r) && Standing(t, it)
    ensures Ahead(t, it, k) <==> AtOrAfter(r.path, t.owner[k].path)
  {
    OwnerHolds(t, k);
    RightIrreflexive(r.path);
    if r.path == t.owner[k].path {
      t.Unique(r, t.owner[k]);
    }
  }

  /** Nothing is between a holder and the next one. */
  lemma NextHolderSplits<T>(t: Htrie<T>, n: Node<T>, r: Node?<T>, k: Key)
    requires t.Wf() && n in t.repr && NextHolder(t, n.path, r) && k in t.contents
    ensures Before(n.path, t.owner[k].path) <==> r != null && AtOrAfter(r.path, t.owner[k].path)
  {
    OwnerHolds(t, k);
    var o := t.owner[k];
    if r != null && AtOrAfter(r.path, o.path) && r.path != o.path {
      BeforeTransitive(n.path, r.path, o.path);
    }
  }

  lemma StandingAfter<T>(t: Htrie<T>, r: Node<T>, it: Iterator<T>)
    requires t.Valid() && r in t.repr && Holder(t, r) && StartsAt(it, r)
    ensures Standing(t, it) && !IsEnd(it) && NodeOf(t, it) == r
  {
    assert !r.Hollow() && r.Slotted() && Htrie.Known(r, t.contents, t.owner);
  }

  /** operator++ leaves an iterator at an element or at the end. */
  lemma AdvancedStands<T>(t: Htrie<T>, it: Iterator<T>, it': Iterator<T>, j: nat, r: Node?<T>)
    requires t.Valid() && Standing(t, it) && Advanced(t, it, it', j, r)
    ensures IsEnd(it') || Standing(t, it')
  {
    if (it.readValue || j == |it.hashNode.bucket|) && r != null {
      StandingAfter(t, r, it');
    }
  }

  /** The keys of a bucket from an index on: the first of them, and the others. */
  lemma BucketStep<T>(n: Node<T>, i: nat, k: Key)
    requires !n.isTrie && n.Stocked() && i < |n.bucket|
    ensures (exists l :: i <= l < |n.bucket| && k == n.path + n.bucket[l].0)
      <==> k == n.path + n.bucket[i].0 || exists l :: i + 1 <= l < |n.bucket| && k == n.path + n.bucket[l].0
    ensures k == n.path + n.bucket[i].0 ==> !exists l :: i + 1 <= l < |n.bucket| && k == n.path + n.bucket[l].0
  {
    forall l | i <= l < |n.bucket|
      ensures (n.path + n.bucket[l].0)[|n.path|..] == n.bucket[l].0
    {
    }
  }

  lemma LeafStocked<T>(t: Htrie<T>, it: Iterator<T>)
    requires t.Wf() && Standing(t, it)
    ensures !it.readValue ==> it.hashNode.Stocked()
  {
    assert Htrie.Known(NodeOf(t, it), t.contents, t.owner);
  }

  lemma AheadStepInLeaf<T>(t: Htrie<T>, it: Iterator<T>, it': Iterator<T>, k: Key)
    requires t.Wf() && Standing(t, it) && !it.readValue && k in t.contents
    requires it' == it.(index := it.index + 1) && Standing(t, it')
    ensures Ahead(t, it, k) <==> Ahead(t, it', k) || k == ElementKey(t, it)
    ensures Ahead(t, it', k) ==> k != ElementKey(t, it)
  {
    hide Htrie.Linked, Htrie.Filled, Right;
    KeysAgree(t);
    StandingFacts(t, it);
    LeafStocked(t, it);
    BucketStep(it.hashNode, it.index, k);
    RightIrreflexive(it.hashNode.path);
  }

  lemma AheadStepOn<T>(t: Htrie<T>, it: Iterator<T>, it': Iterator<T>, r: Node?<T>, k: Key)
    requires t.Valid() && Standing(t, it) && k in t.contents
    requires !it.readValue ==> it.index + 1 == |it.hashNode.bucket|
    requires NextHolder(t, NodeOf(t, it).path, r)
    requires if r == null then IsEnd(it') else r in t.repr && StartsAt(it', r) && Standing(t, it')
    ensures Ahead(t, it, k) <==> Ahead(t, it', k) || k == ElementKey(t, it)
    ensures Ahead(t, it', k) ==> k != ElementKey(t, it)
  {
    hide Htrie.Linked, Htrie.Filled, Htrie.Compact, Right, NextHolder;
    var n := NodeOf(t, it);
    KeysAgree(t);
    OwnerHolds(t, k);
    StandingFacts(t, it);
    LeafStocked(t, it);
    if !it.readValue {
      BucketStep(n, it.index, k);
    }
    RightIrreflexive(n.path);
    NextHolderSplits(t, n, r, k);
    if r != null {
      AheadFromStart(t, it', r, k);
    }
  }

  /** What operator++ does to what lies ahead: the element it leaves is gone, and nothing else. */
  lemma AheadStep<T>(t: Htrie<T>, it: Iterator<T>, it': Iterator<T>, j: nat, r: Node?<T>)
    requires t.Valid() && Standing(t, it) && it.filter == [] && Advanced(t, it, it', j, r)
    ensures it'.filter == [] && (IsEnd(it') || Standing(t, it'))
    ensures Remaining(t, it) == Remaining(t, it') + {ElementKey(t, it)}
    ensures ElementKey(t, it) !in Remaining(t, it')
  {
    hide Htrie.Linked, Htrie.Filled, Htrie.Compact, Ahead, NextHolder;
    KeysAgree(t);
    AdvancedStands(t, it, it', j, r);
    StandingFacts(t, it);
    if !it.readValue && it.index + 1 < |it.hashNode.bucket| {
      assert [] <= it.hashNode.bucket[it.index + 1].0;
    }
    forall k | k in t.owner
      ensures Ahead(t, it, k) <==> Ahead(t, it', k) || k == ElementKey(t, it)
      ensures Ahead(t, it', k) ==> k != ElementKey(t, it)
    {
      if !it.readValue && j < |it.hashNode.bucket| {
        assert j == it.index + 1;
        AheadStepInLeaf(t, it, it', k);
      } else {
        AheadStepOn(t, it, it', r, k);
      }
    }
  }

  /** From begin(), everything is ahead. */
  lemma AllAhead<T>(t: Htrie<T>, it: Iterator<T>, r: Node?<T>)
    requires t.Valid()
    requires t.contents == map[] ==> IsEnd(it)
    requires t.contents != map[] ==> r != null && FirstBelow(t, [], r) && StartsAt(it, r)
    ensures IsEnd(it) || Standing(t, it)
    ensures Remaining(t, it) == t.contents.Keys
  {
    KeysAgree(t);
    if t.contents != map[] {
      StandingAfter(t, r, it);
      hide Htrie.Linked, Htrie.Filled, Htrie.Compact, Ahead;
      forall k | k in t.contents
        ensures Ahead(t, it, k)
      {
        OwnerHolds(t, k);
        AheadFromStart(t, it, r, k);
      }
    }
  }

  ghost predicate Distinct(keys: seq<Key>) {
    forall i, j :: 0 <= i < j < |keys| ==> keys[i] != keys[j]
  }

  /** `keys` and `values` are what an iterator has met on its way to `it`. */
  ghost predicate Met<T>(t: Htrie<T>, it: Iterator<T>, keys: seq<Key>, values: seq<T>)
    requires IsEnd(it) || Standing(t, it)
    reads t, t.repr, t.owner.Values
  {
    && Distinct(keys) && |keys| == |values|
    && |keys| + |Remaining(t, it)| == |t.contents|
    && (forall k :: k in t.contents <==> k in keys || k in Remaining(t, it))
    && (forall k :: k in keys ==> k !in Remaining(t, it))
    && (forall i :: 0 <= i < |keys| ==> keys[i] in t.contents && values[i] == t.contents[keys[i]])
  }

  lemma MetStep<T>(t: Htrie<T>, it: Iterator<T>, it': Iterator<T>, keys: seq<Key>, values: seq<T>, k: Key)
    requires Standing(t, it) && (IsEnd(it') || Standing(t, it')) && k in t.contents
    requires Met(t, it, keys, values)
    requires Remaining(t, it) == Remaining(t, it') + {k} && k !in Remaining(t, it')
    ensures Met(t, it', keys + [k], values + [t.contents[k]])
    ensures Remaining(t, it') < Remaining(t, it)
  {
    hide Remaining;
    assert k in Remaining(t, it);
    assert Remaining(t, it') == Remaining(t, it) - {k};
  }

  /** for (it = begin(); it != end(); ++it): each stored pair, once. */
  method Traverse<T>(t: Htrie<T>) returns (keys: seq<Key>, values: seq<T>)
    requires t.Valid()
    ensures Distinct(keys) && |keys| == |values| == |t.contents|
    ensures forall k :: k in t.contents <==> k in keys
    ensures forall i :: 0 <= i < |keys| ==> keys[i] in t.contents && values[i] == t.contents[keys[i]]
  {
    hide Htrie.Linked, Htrie.Filled, Htrie.Compact, Ahead, Remaining, NextHolder, Advanced, Standing, ElementKey, Met, Distinct,
      FirstBelow, StartsAt, NodeOf;
    ghost var r;
    var it;
    it, r := Begin(t);
    AllAhead(t, it, r);
    keys, values := [], [];
    NoneMet(t, it);
    while !IsEnd(it)
      invariant it.filter == [] && (IsEnd(it) || Standing(t, it))
      invariant Met(t, it, keys, values)
      decreases Remaining(t, it)
    {
      var k := GetKey(t, it);
      var v := GetValue(t, it);
      var it', j, r' := Increment(t, it);
      AheadStep(t, it, it', j, r');
      MetStep(t, it, it', keys, values, k);
      keys, values, it := keys + [k], values + [v], it';
    }
    AllMet(t, it, keys, values);
  }

  lemma NoneMet<T>(t: Htrie<T>, it: Iterator<T>)
    requires (IsEnd(it) || Standing(t, it)) && Remaining(t, it) == t.contents.Keys
    ensures Met(t, it, [], [])
  {
    hide Remaining;
  }

  lemma AllMet<T>(t: Htrie<T>, it: Iterator<T>, keys: seq<Key>, values: seq<T>)
    requires IsEnd(it) && Met(t, it, keys, values)
    ensures Distinct(keys) && |keys| == |values| == |t.contents|
    ensures forall k :: k in t.contents <==> k in keys
    ensures forall i :: 0 <= i < |keys| ==> keys[i] in t.contents && values[i] == t.contents[keys[i]]
  {
    NothingAhead(t, it);
  }
}
