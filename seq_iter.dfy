/**
 * The seq_file iteration over j_list: j_seq_start, j_seq_next and
 * j_seq_show, with the list fixed for the duration of one read. An entry is
 * named by its position in the list.
 */
module SeqIter {
  import opened Errno
  import opened Decimal

  /** What the callbacks hand each other: SEQ_START_TOKEN, a list entry, or NULL. */
  datatype Cursor = StartToken | Entry(index: nat) | End

  predicate ValidCursor(list: seq<int>, c: Cursor)
  {
    c.Entry? ==> c.index < |list|
  }

  /** seq_list_start: the entry at position pos, or NULL when the list is shorter. */
  function ListStart(list: seq<int>, pos: nat): (c: Cursor)
    ensures ValidCursor(list, c) && !c.StartToken?
    ensures c.End? <==> pos >= |list|
    ensures c.Entry? ==> c.index == pos
  {
    if pos < |list| then Entry(pos) else End
  }

  /** j_seq_start: the start token at position 0, otherwise the entry at pos. */
  function Start(list: seq<int>, pos: nat): (c: Cursor)
    ensures ValidCursor(list, c)
    ensures c.StartToken? <==> pos == 0
    ensures c.Entry? ==> c.index == pos
    ensures c.End? <==> pos > 0 && pos >= |list|
  {
    if pos == 0 then StartToken else ListStart(list, pos)
  }

  /**
   * j_seq_next: from the token to the first entry without touching pos;
   * from an entry to the one after it (NULL after the last), advancing pos.
   */
  function Next(list: seq<int>, c: Cursor, pos: nat): (r: (Cursor, nat))
    requires ValidCursor(list, c) && !c.End?
    ensures ValidCursor(list, r.0) && !r.0.StartToken?
    ensures c.StartToken? ==> r.1 == pos && (r.0.End? <==> list == []) && (r.0.Entry? ==> r.0.index == 0)
    ensures c.Entry? ==> r.1 == pos + 1 && (r.0.End? <==> c.index + 1 == |list|)
                         && (r.0.Entry? ==> r.0.index == c.index + 1)
  {
    match c
    case StartToken => (ListStart(list, 0), pos)
    case Entry(i) => (if i + 1 < |list| then Entry(i + 1) else End, pos + 1)
  }

  /** The line j_seq_show prints for the start token. */
  function StartLine(name: string): (line: string)
    ensures |line| == 40 + |name| && line[38..38 + |name|] == name
    ensures line[..7] != "val is " && line[|line| - 1] == '\n'
  {
    var head := "This is start of list, (entry name is ";
    var line := head + name + ")\n";
    assert line[0] == 'T' && line[..7][0] == 'T';
    assert line[38..38 + |name|] == name;
    line
  }

  /** The line j_seq_show prints for an entry. */
  function ValueLine(v: int): (line: string)
    ensures |line| > 8 && line[..7] == "val is " && line[|line| - 1] == '\n'
    ensures IsDigit(line[|line| - 2])
  {
    var f := Format(v);
    var line := "val is " + f + "\n";
    assert line[..7] == "val is ";
    assert line[|line| - 2] == f[|f| - 1];
    line
  }

  /** j_seq_show: the start line for the token, the value line for an entry. */
  function Show(list: seq<int>, c: Cursor, name: string): (line: string)
    requires ValidCursor(list, c) && !c.End?
    ensures |line| > 7 && line[|line| - 1] == '\n'
    ensures line[..7] == "val is " <==> c.Entry?
    ensures c.StartToken? ==> |line| == 40 + |name| && line[38..38 + |name|] == name
  {
    match c
    case StartToken => StartLine(name)
    case Entry(i) => ValueLine(list[i])
  }

  /** The number in a value line reads back, through the parser the writes use, as the entry's value. */
  lemma ShowPrintsValue(list: seq<int>, i: nat, name: string)
    requires i < |list| && LONG_MIN <= list[i] <= LONG_MAX
    ensures Show(list, Entry(i), name)[..7] == "val is "
    ensures ParseLong(Show(list, Entry(i), name)[7..]) == Ok(list[i])
  {
    var line := Show(list, Entry(i), name);
    assert line[7..] == Format(list[i]) + "\n";
    ParseFormat(list[i]);
  }

  function Remaining(list: seq<int>, c: Cursor): nat
  {
    match c
    case StartToken => |list| + 1
    case Entry(i) => if i < |list| then |list| - i else 0
    case End => 0
  }

  /**
   * The lines one read produces from cursor c on: show the cursor, step
   * with next, and stop at NULL.
   */
  function Read(list: seq<int>, c: Cursor, pos: nat, name: string): seq<string>
    requires ValidCursor(list, c)
    decreases Remaining(list, c)
  {
    if c.End? then []
    else
      var r := Next(list, c, pos);
      [Show(list, c, name)] + Read(list, r.0, r.1, name)
  }

  /** One value line per entry, in list order. */
  function ValueLines(list: seq<int>): (lines: seq<string>)
    ensures |lines| == |list|
  {
    seq(|list|, i requires 0 <= i < |list| => ValueLine(list[i]))
  }

  lemma {:induction false} ReadFromPosition(list: seq<int>, i: nat, pos: nat, name: string)
    requires i <= |list|
    ensures Read(list, ListStart(list, i), pos, name) == ValueLines(list)[i..]
    decreases |list| - i
  {
    var lines := ValueLines(list);
    if i < |list| {
      ReadFromPosition(list, i + 1, pos + 1, name);
      var rest := Read(list, ListStart(list, i + 1), pos + 1, name);
      assert Next(list, Entry(i), pos) == (ListStart(list, i + 1), pos + 1);
      assert Read(list, Entry(i), pos, name) == [lines[i]] + rest;
      assert lines[i..] == [lines[i]] + lines[i + 1..];
    } else {
      assert lines[i..] == [];
    }
  }

  /**
   * A fresh read from position 0 prints the start line and then one
   * "val is <v>" line per entry, in list order.
   */
  lemma ReadListsEveryValue(list: seq<int>, name: string)
    ensures Read(list, Start(list, 0), 0, name) == [StartLine(name)] + ValueLines(list)
  {
    ReadFromPosition(list, 0, 0, name);
    assert ValueLines(list)[0..] == ValueLines(list);
  }

  /** The cursor and position after starting at 0 and n calls to next (which stop at NULL). */
  function Steps(list: seq<int>, n: nat): (r: (Cursor, nat))
    ensures ValidCursor(list, r.0)
  {
    if n == 0 then (Start(list, 0), 0)
    else
      var p := Steps(list, n - 1);
      if p.0.End? then p else Next(list, p.0, p.1)
  }

  /**
   * After the first call to next, the cursor is always the entry that
   * seq_list_start gives for the current position, until NULL at position
   * |list|.
   */
  lemma {:induction false} StepsTrackPosition(list: seq<int>, n: nat)
    requires 1 <= n <= |list| + 1
    ensures Steps(list, n) == (ListStart(list, n - 1), n - 1)
  {
    if n > 1 {
      StepsTrackPosition(list, n - 1);
    }
  }

  /**
   * A read resumed at the position reached after the second call to next
   * or later starts at the very cursor the read had reached.
   */
  lemma ResumeAfterFirstEntry(list: seq<int>, n: nat)
    requires 2 <= n <= |list| + 1
    ensures Start(list, Steps(list, n).1) == Steps(list, n).0
  {
    StepsTrackPosition(list, n);
  }

  /**
   * Next leaves the position at 0 when it moves from the token to the first
   * entry, so a read resumed there starts again at the token instead of at
   * that entry.
   */
  lemma ResumeAtFirstEntryReplaysToken(list: seq<int>)
    requires |list| > 0
    ensures Steps(list, 1) == (Entry(0), 0)
    ensures Start(list, Steps(list, 1).1) == StartToken
  {
    StepsTrackPosition(list, 1);
  }
}
