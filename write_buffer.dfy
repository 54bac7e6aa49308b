/**
 * The front half shared by first_j_write and second_j_write: copy at most
 * BUF_SIZE-1 bytes of the caller's text into the stack buffer kbuf, store a
 * terminator, strip whitespace and parse a decimal long.
 *
 * copy_from_user is modelled by the bytes readable at the user address
 * (`user`): it copies what is readable and reports how many bytes it could
 * not copy.
 */
module WriteBuffer {
  import opened Errno
  import opened Seqs
  import opened Decimal

  /** Size of kbuf: the length of the longest long plus one for the terminator. */
  const BUF_SIZE: nat := 12

  function Min(a: nat, b: nat): nat { if a <= b then a else b }

  /** The length handed to copy_from_user: min_t(size, BUF_SIZE-1). */
  function CopyLength(size: nat): (n: nat)
    ensures n <= BUF_SIZE - 1 && n <= size
    ensures size < BUF_SIZE ==> n == size
  {
    Min(size, BUF_SIZE - 1)
  }

  /** What copy_from_user returns for n bytes: the number it could not copy. */
  function Uncopied(user: seq<char>, n: nat): (left: nat)
    ensures left <= n
    ensures left == 0 <==> n <= |user|
  {
    if n <= |user| then 0 else n - |user|
  }

  /** The terminator index first_j_write computes, as written: min_t(size, BUF_SIZE). */
  function FirstTerminatorAsWritten(size: nat): (w: nat)
    ensures w <= BUF_SIZE && w <= size
    ensures w == BUF_SIZE <==> size >= BUF_SIZE
  {
    Min(size, BUF_SIZE)
  }

  /** The terminator index second_j_write computes, as written: min_t(size, BUF_SIZE) - left. */
  function SecondTerminatorAsWritten(size: nat, left: nat): (w: int)
    ensures w <= BUF_SIZE && w <= size
    ensures left == 0 ==> (w == BUF_SIZE <==> size >= BUF_SIZE)
  {
    Min(size, BUF_SIZE) - left
  }

  /**
   * first_j_write's index stays inside kbuf[0..BUF_SIZE) exactly when the
   * write is shorter than the buffer; from size 12 on, `kbuf[written] = '\0'`
   * stores one byte past the end of kbuf.
   */
  lemma FirstTerminatorInBoundsIff(size: nat)
    ensures FirstTerminatorAsWritten(size) < BUF_SIZE <==> size < BUF_SIZE
    ensures size >= BUF_SIZE ==> FirstTerminatorAsWritten(size) == BUF_SIZE
  {
  }

  /** The same for second_j_write, where `left` is 0 once the copy succeeded. */
  lemma SecondTerminatorInBoundsIff(size: nat)
    ensures SecondTerminatorAsWritten(size, 0) < BUF_SIZE <==> size < BUF_SIZE
    ensures size >= BUF_SIZE ==> SecondTerminatorAsWritten(size, 0) == BUF_SIZE
  {
  }

  /** `echo "123456789012"` writes 13 bytes: the as-written index is 12, past kbuf. */
  lemma EchoTwelveDigitsOverflows()
    ensures FirstTerminatorAsWritten(|"123456789012\n"|) == BUF_SIZE
  {
  }

  /**
   * The corrected terminator index: just after the bytes copied. It is in
   * bounds for every size, and equals the as-written index wherever that one
   * is in bounds.
   */
  function TerminatorIndex(size: nat): (w: nat)
    ensures w < BUF_SIZE
    ensures w <= size
    ensures size < BUF_SIZE ==> (w == FirstTerminatorAsWritten(size) && w == SecondTerminatorAsWritten(size, 0))
  {
    CopyLength(size)
  }

  /** The C string held by a buffer: everything before its first NUL. */
  function CString(buf: seq<char>): (s: string)
    ensures '\0' !in s
    ensures |s| <= |buf| && s == buf[..|s|]
    ensures |s| < |buf| ==> buf[|s|] == '\0'
  {
    buf[..IndexOf(buf, '\0')]
  }

  /** A terminator after s ends the C string no later than s does. */
  lemma CStringAtTerminator(s: seq<char>, rest: seq<char>)
    ensures CString(s + ['\0'] + rest) == CString(s)
  {
    var b := s + ['\0'] + rest;
    var k := IndexOf(s, '\0');
    if k < |s| {
      IndexOfFirstMatch(b, '\0', k);
    } else {
      IndexOfFirstMatch(b, '\0', |s|);
    }
  }

  /** The string that reaches strstrip: the copied bytes up to the first NUL. */
  function KernelText(user: seq<char>, size: nat): (t: string)
    requires CopyLength(size) <= |user|
    ensures |t| <= CopyLength(size) && t == user[..|t|]
  {
    CString(user[..CopyLength(size)])
  }

  /**
   * The copy into kbuf. With the corrected terminator index the store is in
   * bounds for every size, and the buffer holds the copied bytes as a C
   * string.
   */
  method FillBuffer(user: seq<char>, size: nat) returns (left: nat, text: string)
    ensures left == Uncopied(user, CopyLength(size))
    ensures left == 0 ==> |text| <= BUF_SIZE - 1 && text == KernelText(user, size)
  {
    var kbuf := new char[BUF_SIZE];
    var n := CopyLength(size);
    left := Uncopied(user, n);
    if left > 0 {
      text := [];
      return;
    }
    var i := 0;
    while i < n
      invariant 0 <= i <= n
      invariant kbuf[..i] == user[..i]
    {
      kbuf[i] := user[i];
      i := i + 1;
    }
    var written := TerminatorIndex(size);
    kbuf[written] := '\0';
    assert kbuf[..] == user[..n] + ['\0'] + kbuf[n + 1..];
    CStringAtTerminator(user[..n], kbuf[n + 1..]);
    text := CString(kbuf[..]);
  }

  /**
   * Everything before the list is touched: -EFAULT when bytes are left
   * uncopied, otherwise the parse of the stripped text. The range error the
   * parser can report never arises here on the 64-bit long modelled, since
   * at most eleven bytes reach it (with a 32-bit long eleven characters can
   * exceed the range).
   */
  function WriteInput(user: seq<char>, size: nat): (r: Result<int>)
    ensures r == Err(-EFAULT) <==> Uncopied(user, CopyLength(size)) > 0
    ensures r.Err? ==> r.code == -EFAULT || r.code == -EINVAL
    ensures r.Ok? ==> LONG_MIN <= r.value <= LONG_MAX
  {
    if Uncopied(user, CopyLength(size)) > 0 then Err(-EFAULT)
    else
      var t := Strip(KernelText(user, size));
      ShortTextInRange(t);
      ParseLong(t)
  }

  /** Only the first BUF_SIZE-1 bytes of a write are ever looked at. */
  lemma OnlyCopiedBytesMatter(user: seq<char>, size: nat)
    requires CopyLength(size) <= |user|
    ensures WriteInput(user, size) == WriteInput(user[..CopyLength(size)], size)
  {
    var n := CopyLength(size);
    assert user[..n][..n] == user[..n];
  }

  /**
   * Writing the "%ld" text of a value followed by a newline, as `echo`
   * does, stores that value whenever the text fits in the copied bytes.
   */
  lemma EchoRoundTrip(v: int)
    requires |Format(v)| + 1 <= BUF_SIZE - 1
    ensures WriteInput(Format(v) + "\n", |Format(v)| + 1) == Ok(v)
  {
    var f := Format(v);
    var user := f + "\n";
    assert user[..|user|] == user;
    assert '\0' !in user;
    IndexOfAbsent(user, '\0');
    assert KernelText(user, |user|) == user;
    StripTrailingSpace(f, '\n');
    assert Strip(KernelText(user, |user|)) == f;
    ShortFormatInRange(v);
    ParseFormat(v);
  }

  /**
   * A write longer than the copied bytes is cut, not refused: when the
   * first BUF_SIZE-1 bytes are the text of a value, that value is stored
   * whatever follows.
   */
  lemma OversizedWriteTruncated(v: int, rest: string)
    requires |Format(v)| == BUF_SIZE - 1
    ensures WriteInput(Format(v) + rest, BUF_SIZE - 1 + |rest|) == Ok(v)
  {
    var f := Format(v);
    var user := f + rest;
    assert user[..BUF_SIZE - 1] == f;
    assert '\0' !in f;
    IndexOfAbsent(f, '\0');
    assert KernelText(user, |user|) == f;
    StripTrimmed(f);
    ShortFormatInRange(v);
    ParseFormat(v);
  }
}
