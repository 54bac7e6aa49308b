/**
 * The contents of j_list as a sequence of values in list order, and the
 * two changes the write handlers make to it: insert-if-absent at the tail
 * and remove-first-match.
 */
module ListOps {
  import opened Seqs

  /** No two entries hold the same value. */
  predicate Unique(s: seq<int>)
  {
    forall i, j :: 0 <= i < j < |s| ==> s[i] != s[j]
  }

  /**
   * first_j_write on the list: the value is linked at the tail when no
   * entry holds it; otherwise the list is left as it was.
   */
  function InsertIfAbsent(s: seq<int>, v: int): (r: seq<int>)
    ensures |r| == if v in s then |s| else |s| + 1
    ensures r[..|s|] == s
    ensures forall x :: x in r <==> x in s || x == v
  {
    if v in s then s else s + [v]
  }

  /**
   * second_j_write on the list: the first entry that holds v is unlinked;
   * with no such entry the list is left as it was.
   */
  function RemoveFirst(s: seq<int>, v: int): (r: seq<int>)
    ensures |r| == if v in s then |s| - 1 else |s|
    ensures v !in s ==> r == s
  {
    var i := IndexOf(s, v);
    if i < |s| then s[..i] + s[i + 1..] else s
  }

  /** A new value goes at the tail; every earlier entry keeps its value and place. */
  lemma InsertAbsentAppends(s: seq<int>, v: int)
    requires v !in s
    ensures InsertIfAbsent(s, v) == s + [v]
  {
  }

  /** A value already present leaves the list unchanged. */
  lemma InsertPresentUnchanged(s: seq<int>, v: int)
    requires v in s
    ensures InsertIfAbsent(s, v) == s
  {
  }

  lemma InsertPreservesUnique(s: seq<int>, v: int)
    requires Unique(s)
    ensures Unique(InsertIfAbsent(s, v))
  {
  }

  /**
   * Removing deletes exactly the entry at the first index holding v; the
   * entries before it and after it keep their order.
   */
  lemma RemoveDeletesFirstMatch(s: seq<int>, v: int, k: nat)
    requires k < |s| && s[k] == v
    requires forall j :: 0 <= j < k ==> s[j] != v
    ensures RemoveFirst(s, v) == s[..k] + s[k + 1..]
  {
    IndexOfFirstMatch(s, v, k);
  }

  /** The entries left after a removal, position by position. */
  lemma RemoveKeepsOrder(s: seq<int>, v: int, j: nat)
    requires v in s && j < |s| - 1
    ensures RemoveFirst(s, v)[j] == if j < IndexOf(s, v) then s[j] else s[j + 1]
  {
    var k := IndexOf(s, v);
    IndexOfAbsent(s, v);
    var r := s[..k] + s[k + 1..];
    assert RemoveFirst(s, v) == r;
    if j < k {
      assert r[j] == s[..k][j];
    } else {
      assert r[j] == s[k + 1..][j - k];
    }
  }

  lemma RemovePreservesUnique(s: seq<int>, v: int)
    requires Unique(s)
    ensures Unique(RemoveFirst(s, v))
  {
    var r := RemoveFirst(s, v);
    var k := IndexOf(s, v);
    forall a, b | 0 <= a < b < |r|
      ensures r[a] != r[b]
    {
      if k < |s| {
        var a' := if a < k then a else a + 1;
        var b' := if b < k then b else b + 1;
        assert r[a] == s[a'] && r[b] == s[b'] && a' < b';
      }
    }
  }

  /** On a list without duplicates, removal takes v out of the membership and nothing else. */
  lemma RemoveMembership(s: seq<int>, v: int)
    requires Unique(s)
    ensures forall x :: x in RemoveFirst(s, v) <==> x in s && x != v
  {
    var r := RemoveFirst(s, v);
    var k := IndexOf(s, v);
    if k < |s| {
      assert r == s[..k] + s[k + 1..];
      forall x | x in s && x != v
        ensures x in r
      {
        var i :| 0 <= i < |s| && s[i] == x;
        if i < k { assert r[i] == x; } else { assert r[i - 1] == x; }
      }
      forall x | x in r
        ensures x in s && x != v
      {
        var i :| 0 <= i < |r| && r[i] == x;
        if i < k {
          assert s[i] == x;
        } else {
          assert s[i + 1] == x && i + 1 != k;
        }
      }
    }
  }

  /** Inserting a new value and then removing it gives back the list. */
  lemma InsertThenRemove(s: seq<int>, v: int)
    requires v !in s
    ensures RemoveFirst(InsertIfAbsent(s, v), v) == s
  {
    var t := s + [v];
    RemoveDeletesFirstMatch(t, v, |s|);
    assert t[..|s|] == s;
  }

  /**
   * On a list without duplicates, removing v twice in a row finds it the
   * first time only; the second removal changes nothing.
   */
  lemma RemoveTwice(s: seq<int>, v: int)
    requires Unique(s) && v in s
    ensures v !in RemoveFirst(s, v)
    ensures RemoveFirst(RemoveFirst(s, v), v) == RemoveFirst(s, v)
  {
    RemoveMembership(s, v);
  }

  /** A write request as the list sees it, once parsed. */
  datatype Request = Add(value: int) | Delete(value: int)

  /** The list after a series of requests, applied one at a time. */
  function Apply(s: seq<int>, reqs: seq<Request>): seq<int>
    decreases |reqs|
  {
    if reqs == [] then s
    else
      var t := Apply(s, reqs[..|reqs| - 1]);
      match reqs[|reqs| - 1]
      case Add(v) => InsertIfAbsent(t, v)
      case Delete(v) => RemoveFirst(t, v)
  }

  /**
   * An independent account of membership: x is in the list after the
   * requests when the last request that names x is an Add, or, when none
   * names it, when it was there to begin with.
   */
  predicate MemberAfter(s: seq<int>, reqs: seq<Request>, x: int)
    decreases |reqs|
  {
    if reqs == [] then x in s
    else if reqs[|reqs| - 1].value == x then reqs[|reqs| - 1].Add?
    else MemberAfter(s, reqs[..|reqs| - 1], x)
  }

  /** However many times a value is written, the list holds it at most once. */
  lemma {:induction false} ApplyPreservesUnique(s: seq<int>, reqs: seq<Request>)
    requires Unique(s)
    ensures Unique(Apply(s, reqs))
    decreases |reqs|
  {
    if reqs != [] {
      var t := Apply(s, reqs[..|reqs| - 1]);
      ApplyPreservesUnique(s, reqs[..|reqs| - 1]);
      match reqs[|reqs| - 1]
      case Add(v) => InsertPreservesUnique(t, v);
      case Delete(v) => RemovePreservesUnique(t, v);
    }
  }

  /** The list behaves as a set: membership after the requests is MemberAfter. */
  lemma {:induction false} ApplyMembership(s: seq<int>, reqs: seq<Request>, x: int)
    requires Unique(s)
    ensures x in Apply(s, reqs) <==> MemberAfter(s, reqs, x)
    decreases |reqs|
  {
    if reqs != [] {
      var init := reqs[..|reqs| - 1];
      var t := Apply(s, init);
      ApplyMembership(s, init, x);
      ApplyPreservesUnique(s, init);
      match reqs[|reqs| - 1]
      case Add(v) =>
      case Delete(v) => RemoveMembership(t, v);
    }
  }
}
