/**
 The order in which an iterator meets the nodes of the trie: a node before its descendants, and
 descendants by the unsigned value of the first character in which their paths differ.
 */
module KeyOrder {
  import opened HtrieNode

  /** `q` leaves the way of `p` to the right. */
  ghost predicate Right(p: Key, q: Key) {
    exists i: nat :: RightAt(p, q, i)
  }

  ghost predicate RightAt(p: Key, q: Key, i: nat) {
    i < |p| && i < |q| && p[..i] == q[..i] && p[i] < q[i]
  }

  /** `q` is `p`, or comes after it. */
  ghost predicate AtOrAfter(p: Key, q: Key) {
    p <= q || Right(p, q)
  }

  /** The strict order. */
  ghost predicate Before(p: Key, q: Key) {
    AtOrAfter(p, q) && p != q
  }

  lemma RightExtends(p: Key, q: Key, p': Key, q': Key)
    requires Right(p, q) && p <= p' && q <= q'
    ensures Right(p', q') && !(p' <= q') && !(q' <= p')
  {
    var i: nat :| RightAt(p, q, i);
    assert p'[..i] == p[..i] && q'[..i] == q[..i];
    assert p'[i] == p[i] && q'[i] == q[i];
    assert RightAt(p', q', i);
  }

  lemma RightTransitive(p: Key, q: Key, r: Key)
    requires Right(p, q) && Right(q, r)
    ensures Right(p, r)
  {
    var i: nat :| RightAt(p, q, i);
    var j: nat :| RightAt(q, r, j);
    var k := if i < j then i else j;
    assert p[..k] == p[..i][..k] == q[..i][..k] == q[..k];
    assert q[..k] == q[..j][..k] == r[..j][..k] == r[..k];
    if i < j {
      assert q[i] == q[..j][i] == r[..j][i] == r[i];
    } else if j < i {
      assert p[j] == p[..i][j] == q[..i][j] == q[j];
    }
    assert RightAt(p, r, k);
  }

  lemma RightIrreflexive(p: Key)
    ensures !Right(p, p)
  {
  }

  /** Of two paths that are not prefixes of each other, one is to the right. */
  lemma {:induction false} RightTotal(p: Key, q: Key, i: nat)
    requires i <= |p| && i <= |q| && p[..i] == q[..i] && !(p <= q) && !(q <= p)
    ensures Right(p, q) || Right(q, p)
    decreases |p| - i
  {
    assert p[..|p|] == p && q[..|q|] == q;
    if i < |p| && i < |q| {
      if p[i] == q[i] {
        assert p[..i + 1] == p[..i] + [p[i]] == q[..i + 1];
        RightTotal(p, q, i + 1);
      } else {
        assert RightAt(p, q, i) || RightAt(q, p, i);
      }
    }
  }

  /** Before is a strict total order. */
  lemma BeforeTransitive(p: Key, q: Key, r: Key)
    requires Before(p, q) && Before(q, r)
    ensures Before(p, r)
  {
    if p <= q {
      if Right(q, r) {
        var j: nat :| RightAt(q, r, j);
        if j < |p| {
          assert p[..j] == q[..j] && p[j] == q[j];
          assert RightAt(p, r, j);
          RightExtends(p, r, p, r);
        } else {
          assert p == q[..|p|] == q[..j][..|p|] == r[..j][..|p|] == r[..|p|];
        }
      }
    } else if q <= r {
      RightExtends(p, q, p, r);
    } else {
      RightTransitive(p, q, r);
      RightIrreflexive(p);
    }
  }

  lemma BeforeAsymmetric(p: Key, q: Key)
    requires Before(p, q)
    ensures !Before(q, p)
  {
    if Before(q, p) {
      BeforeTransitive(p, q, p);
    }
  }

  lemma BeforeTotal(p: Key, q: Key)
    ensures p == q || Before(p, q) || Before(q, p)
  {
    if !(p <= q) && !(q <= p) {
      RightTotal(p, q, 0);
      RightIrreflexive(p);
    }
  }
}
