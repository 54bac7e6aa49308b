/**
 * The module's shared state, j_list, and the handlers that change it: the
 * write handlers of the two proc entries and the unload drain. Each write
 * runs as one step on the list, as it does while list_lock is held.
 */
module BluePig {
  import opened Errno
  import opened Decimal
  import opened ListOps
  import opened SeqIter
  import opened WriteBuffer

  const FIRST_PROC_ENTRY_NAME: string := "_first_j_entry"
  const SECOND_PROC_ENTRY_NAME: string := "_second_j_entry"

  class JList {
    /** The values of the entries on j_list, head first. */
    var vals: seq<int>

    /** Every entry holds a long (`val` is a `long int`), and no two entries hold the same value. */
    ghost predicate Valid()
      reads this
    {
      && (forall x :: x in vals ==> LONG_MIN <= x <= LONG_MAX)
      && Unique(vals)
    }

    /** LIST_HEAD(j_list): the list starts out empty. */
    constructor ()
      ensures Valid() && vals == []
    {
      vals := [];
    }

    /**
     * The locked part of first_j_write: scan for v, and link the candidate
     * entry at the tail only when no entry holds v.
     */
    method Insert(v: int) returns (linked: bool)
      requires Valid() && LONG_MIN <= v <= LONG_MAX
      modifies this
      ensures Valid()
      ensures linked <==> v !in old(vals)
      ensures vals == InsertIfAbsent(old(vals), v)
    {
      var isNew := true;
      var i := 0;
      while i < |vals|
        invariant 0 <= i <= |vals|
        invariant isNew
        invariant forall j :: 0 <= j < i ==> vals[j] != v
      {
        if vals[i] == v {
          isNew := false;
          break;
        }
        i := i + 1;
      }
      InsertPreservesUnique(vals, v);
      if isNew {
        vals := vals + [v];
      }
      linked := isNew;
    }

    /** The locked part of second_j_write: unlink the first entry holding v, if any. */
    method Remove(v: int) returns (unlinked: bool)
      requires Valid()
      modifies this
      ensures Valid()
      ensures unlinked <==> v in old(vals)
      ensures vals == RemoveFirst(old(vals), v)
    {
      RemovePreservesUnique(vals, v);
      RemoveMembership(vals, v);
      unlinked := false;
      var i := 0;
      while i < |vals|
        invariant 0 <= i <= |vals|
        invariant vals == old(vals) && !unlinked
        invariant forall j :: 0 <= j < i ==> vals[j] != v
      {
        if vals[i] == v {
          RemoveDeletesFirstMatch(vals, v, i);
          vals := vals[..i] + vals[i + 1..];
          unlinked := true;
          break;
        }
        i := i + 1;
      }
    }

    /**
     * first_j_write: a failed copy or parse returns its error and leaves the
     * list alone; otherwise the value is inserted if absent and the whole
     * write size is returned, duplicate or not.
     */
    method FirstWrite(user: seq<char>, size: nat) returns (r: int)
      requires Valid()
      modifies this
      ensures Valid()
      ensures WriteInput(user, size).Err? ==> r == WriteInput(user, size).code && vals == old(vals)
      ensures WriteInput(user, size).Ok? ==> r == size && vals == InsertIfAbsent(old(vals), WriteInput(user, size).value)
    {
      var left, text := FillBuffer(user, size);
      if left > 0 {
        return -EFAULT;
      }
      var parsed := ParseLong(Strip(text));
      if parsed.Err? {
        return parsed.code;
      }
      var _ := Insert(parsed.value);
      r := size;
    }

    /**
     * second_j_write: a failed copy or parse returns its error and leaves
     * the list alone; otherwise the first entry holding the value is removed
     * and the whole write size is returned, found or not.
     */
    method SecondWrite(user: seq<char>, size: nat) returns (r: int)
      requires Valid()
      modifies this
      ensures Valid()
      ensures WriteInput(user, size).Err? ==> r == WriteInput(user, size).code && vals == old(vals)
      ensures WriteInput(user, size).Ok? ==> r == size && vals == RemoveFirst(old(vals), WriteInput(user, size).value)
    {
      var left, text := FillBuffer(user, size);
      if left > 0 {
        return -EFAULT;
      }
      var parsed := ParseLong(Strip(text));
      if parsed.Err? {
        return parsed.code;
      }
      var _ := Remove(parsed.value);
      r := size;
    }

    /** exit_j_module: delete entries from the head until the list is empty. */
    method Exit() returns (deleted: seq<int>)
      modifies this
      ensures Valid() && vals == []
      ensures deleted == old(vals)
    {
      deleted := [];
      while vals != []
        invariant deleted + vals == old(vals)
        decreases |vals|
      {
        var first := vals[0];
        vals := vals[1..];
        deleted := deleted + [first];
      }
    }
  }

  /**
   * Every line a read of either entry prints for an entry of j_list carries
   * that entry's value: the text after "val is " parses back to it.
   */
  lemma ListedValuesParseBack(list: JList, name: string, i: nat)
    requires list.Valid() && i < |list.vals|
    ensures ParseLong(Show(list.vals, Entry(i), name)[7..]) == Ok(list.vals[i])
  {
    assert list.vals[i] in list.vals;
    ShowPrintsValue(list.vals, i, name);
  }

  /**
   * Inserting 5, 3, 5 keeps [5, 3] and a read lists them in that order;
   * removing 5 twice finds it once; unloading deletes what is left; removing
   * 9 from the empty list finds nothing.
   */
  method ListScenario()
  {
    var list := new JList();
    var a := list.Insert(5);
    var b := list.Insert(3);
    var c := list.Insert(5);
    assert a && b && !c && list.vals == [5, 3];
    ReadListsEveryValue(list.vals, FIRST_PROC_ENTRY_NAME);
    assert ValueLines([5, 3]) == [ValueLine(5), ValueLine(3)];

    var d := list.Remove(5);
    var e := list.Remove(5);
    assert d && !e && list.vals == [3];

    ReadListsEveryValue(list.vals, SECOND_PROC_ENTRY_NAME);
    assert ValueLines([3]) == [ValueLine(3)];

    var deleted := list.Exit();
    assert deleted == [3] && list.vals == [];
    var f := list.Remove(9);
    assert !f && list.vals == [];
  }

  /** `echo v` into the first entry stores v; the same into the second entry removes it. */
  method EchoScenario(v: int)
    requires |Format(v)| + 1 <= BUF_SIZE - 1
  {
    var text := Format(v) + "\n";
    EchoRoundTrip(v);
    var list := new JList();
    var r := list.FirstWrite(text, |text|);
    assert r == |text| && list.vals == [v];
    r := list.FirstWrite(text, |text|);
    assert r == |text| && list.vals == [v];
    r := list.SecondWrite(text, |text|);
    assert r == |text| && list.vals == [];
  }
}
