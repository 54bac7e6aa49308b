/** Searching a sequence, shared by the C-string view of the kernel buffer and the list scans. */
module Seqs {

  /**
   * The index of the first element equal to x, or |s| when there is none:
   * what a list_for_each loop that breaks at the first match stops at.
   */
  function IndexOf<T(==)>(s: seq<T>, x: T): (i: nat)
    ensures i <= |s|
    ensures i < |s| ==> s[i] == x
    ensures forall j :: 0 <= j < i ==> s[j] != x
  {
    if s == [] then 0
    else if s[0] == x then 0
    else 1 + IndexOf(s[1..], x)
  }

  /** Any index that is the first match is the one IndexOf finds. */
  lemma IndexOfFirstMatch<T>(s: seq<T>, x: T, k: nat)
    requires k < |s| && s[k] == x
    requires forall j :: 0 <= j < k ==> s[j] != x
    ensures IndexOf(s, x) == k
  {
  }

  /** A sequence that does not hold x has no match. */
  lemma IndexOfAbsent<T>(s: seq<T>, x: T)
    ensures x !in s <==> IndexOf(s, x) == |s|
  {
  }
}
