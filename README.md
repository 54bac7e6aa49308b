# blue_pig: a deduplicated integer list behind two proc entries

A Dafny model of the core of `blue_pig_module.c`, a Linux kernel module. The module keeps one list of
`long` values, `j_list`, and publishes it through two proc entries:

- A write to `_first_j_entry` parses a decimal integer. It appends the integer at the tail of the list
  unless an entry already holds it.
- A write to `_second_j_entry` parses a decimal integer and unlinks the first entry holding it.
- A read of either entry lists a start line naming the entry, then one `val is <v>` line per entry,
  in list order.
- On unload, the module deletes the entries from the head until the list is empty.

Modules:

- `BluePig` (`blue_pig.dfy`): the list as class `JList`. Its `vals: seq<int>` field holds the values
  of the entries, head first. The class has the two write handlers, their locked scan-and-change
  steps, and the unload drain. Each write is modelled as a whole, one write after another. That
  includes the parse, which runs outside `list_lock` and stores into the shared global `data` (see
  "## Left out").
- `ListOps` (`list_ops.dfy`): the two list changes as functions on sequences
  (`InsertIfAbsent`, `RemoveFirst`). The lemmas about them cover uniqueness, order, membership,
  insert-then-remove and repeated removal.
- `SeqIter` (`seq_iter.dfy`): `j_seq_start`, `j_seq_next` and `j_seq_show` over a cursor. A cursor is
  the start token, an entry by its position, or NULL. The module also has the lines of one full read
  and the `pos` bookkeeping.
- `WriteBuffer` (`write_buffer.dfy`): the front half of both write handlers. It covers the copy into
  the 12-byte stack buffer `kbuf`, the terminator, `strstrip` and the parse.
- `Decimal` (`decimal.dfy`): the `%ld` conversion and the base-10 parse of a `long`.
- `Seqs`, `Errno`: first-match search, error numbers and the `Result` type.

The handlers' ensures clauses tie the new list to `InsertIfAbsent`/`RemoveFirst` of the old one. The
lemmas about those functions state what the module promises.

Two behaviours of the module are worth knowing:

- Input longer than 11 bytes is neither rejected nor cleanly truncated. Line 134 copies 11 bytes, so
  `kbuf[11]` is never filled. Line 138 sets the index to 12, and line 144 stores the NUL there,
  past the end of `kbuf` (see "## Findings").
  The model uses the corrected terminator index, which truncates such input to its first 11 bytes
  (`OversizedWriteTruncated`).
- A write returns only `size`, whether the value was inserted, was a duplicate, was removed or was
  not found.

## Model

| member | source | states |
|---|---|---|
| Seqs.IndexOf | blue_pig_module.c:162-167 | the index a scan that breaks at the first match stops at: in bounds and matching, or the length; no earlier element matches |
| ListOps.InsertIfAbsent | blue_pig_module.c:162-170 | the list after insert-if-absent: the old list is a prefix, the length grows by one exactly when the value was absent, and membership gains exactly the value |
| ListOps.RemoveFirst | blue_pig_module.c:208-218 | the list after remove-if-present: one entry shorter exactly when the value was present, unchanged when it was absent |
| ListOps.InsertAbsentAppends | blue_pig_module.c:169-170 | a value not in the list is appended at the tail; earlier entries keep their values and order |
| ListOps.InsertPresentUnchanged | blue_pig_module.c:162-175 | a value already present leaves the list unchanged, so the candidate entry is never linked |
| ListOps.InsertPreservesUnique | blue_pig_module.c:162-170 | insert keeps "no two entries hold the same value" |
| ListOps.RemoveDeletesFirstMatch | blue_pig_module.c:208-216 | removal deletes exactly the entry at the first index holding the value; the rest keep their order |
| ListOps.RemoveKeepsOrder | blue_pig_module.c:210 | position by position, the entries after removal are the old entries before the match, then those after it |
| ListOps.RemovePreservesUnique | blue_pig_module.c:208-218 | remove keeps "no two entries hold the same value" |
| ListOps.RemoveMembership | blue_pig_module.c:208-218 | on a duplicate-free list, removal takes exactly that value out of the membership |
| ListOps.InsertThenRemove | blue_pig_module.c:162-218 | inserting a new value and then removing it restores the list |
| ListOps.RemoveTwice | blue_pig_module.c:208-219 | removing a value twice finds it once; the second removal changes nothing |
| ListOps.ApplyPreservesUnique | blue_pig_module.c:161-219 | after any series of inserts and removes, each value is held at most once |
| ListOps.ApplyMembership | blue_pig_module.c:161-219 | after any series of requests, a value is present exactly when the last request naming it was an insert, or when no request named it and it was present before |
| BluePig.JList.constructor | blue_pig_module.c:39 | the list starts empty |
| BluePig.JList.Insert | blue_pig_module.c:161-175 | the scan with the `new` flag; links a long at the tail only if absent, reports whether it linked, keeps every entry a long and all entries distinct |
| BluePig.JList.Remove | blue_pig_module.c:206-219 | the scan that unlinks the first match and breaks; reports whether it found one, keeps uniqueness |
| BluePig.JList.FirstWrite | blue_pig_module.c:123-178 | copy or parse failure returns its error with the list untouched; otherwise insert-if-absent and return `size` |
| BluePig.JList.SecondWrite | blue_pig_module.c:180-222 | copy or parse failure returns its error with the list untouched; otherwise remove-first-match and return `size` |
| BluePig.ListedValuesParseBack | blue_pig_module.c:45-78 | every entry of `j_list` holds a `long`, so the line a read prints for it parses back to its value |
| BluePig.JList.Exit | blue_pig_module.c:280-285 | the unload loop ends with an empty list, having deleted the entries front first in list order |
| SeqIter.ListStart | blue_pig_module.c:55 | `seq_list_start`: the entry at position `pos`, or NULL exactly when `pos` is past the end |
| SeqIter.Start | blue_pig_module.c:49-57 | position 0 yields the start token; any other position yields the entry at that position, or NULL |
| SeqIter.Next | blue_pig_module.c:59-65 | from the token: the first entry (NULL for an empty list) with `pos` unchanged; from an entry: the next one (NULL after the last) with `pos` advanced |
| SeqIter.StartLine | blue_pig_module.c:80 | the start line carries the entry name at a fixed offset, ends in a newline, and cannot be taken for a value line |
| SeqIter.ValueLine | blue_pig_module.c:78 | a value line starts with `val is `, ends in a newline, and the character before it is a digit |
| SeqIter.Show | blue_pig_module.c:72-84 | `j_seq_show`: a newline-terminated line that starts with `val is ` exactly for an entry, and carries the entry name for the token |
| SeqIter.ShowPrintsValue | blue_pig_module.c:76-78 | an entry's line is `val is ` followed by text that parses back to the entry's value |
| SeqIter.ReadFromPosition | blue_pig_module.c:64 | from the entry at position i, stepping and showing gives the value lines of entries i onward |
| SeqIter.ReadListsEveryValue | blue_pig_module.c:49-84 | a fresh read gives the start line naming the entry, then one `val is <v>` line per entry, in list order |
| SeqIter.StepsTrackPosition | blue_pig_module.c:59-65 | after the first `next`, the cursor is always the `seq_list_start` entry for the current `pos`, ending at NULL with `pos` equal to the length |
| SeqIter.ResumeAfterFirstEntry | blue_pig_module.c:52-55 | a read restarted at any `pos` reached after the second `next` resumes at the same cursor |
| SeqIter.ResumeAtFirstEntryReplaysToken | blue_pig_module.c:52-62 | `next` from the token leaves `pos` at 0, so a read restarted there begins with the token again rather than the first entry |
| WriteBuffer.CopyLength | blue_pig_module.c:134 | the copy length is at most `BUF_SIZE-1` = 11 and at most `size`, and equals `size` for short writes |
| WriteBuffer.Uncopied | blue_pig_module.c:134-136 | `copy_from_user` reports zero uncopied bytes exactly when the whole length was readable |
| WriteBuffer.FirstTerminatorAsWritten | blue_pig_module.c:138 | the as-written `min_t(size, BUF_SIZE)`: at most `BUF_SIZE` and at most `size`, and equal to `BUF_SIZE` exactly when `size >= BUF_SIZE` |
| WriteBuffer.SecondTerminatorAsWritten | blue_pig_module.c:191 | the as-written `min_t(size, BUF_SIZE) - left`: at most `BUF_SIZE` and at most `size`; with `left` 0, equal to `BUF_SIZE` exactly when `size >= BUF_SIZE` |
| WriteBuffer.FirstTerminatorInBoundsIff | blue_pig_module.c:138-144 | first_j_write's as-written terminator index `min(size, BUF_SIZE)` is inside `kbuf` exactly when `size < BUF_SIZE`, and equals `BUF_SIZE` otherwise |
| WriteBuffer.SecondTerminatorInBoundsIff | blue_pig_module.c:191-195 | second_j_write's as-written index `min(size, BUF_SIZE) - left`, with `left` 0, is inside `kbuf` exactly when `size < BUF_SIZE`, and equals `BUF_SIZE` otherwise |
| WriteBuffer.EchoTwelveDigitsOverflows | blue_pig_module.c:19 | the 13-byte write `echo "123456789012"` gets the out-of-bounds terminator index 12 |
| WriteBuffer.TerminatorIndex | blue_pig_module.c:138 | the corrected terminator index is in bounds for every size and equals the as-written index wherever that one is in bounds |
| WriteBuffer.CString | blue_pig_module.c:144-145 | the C string in a buffer is the prefix before its first NUL |
| WriteBuffer.CStringAtTerminator | blue_pig_module.c:144 | a terminator stored after the copied bytes ends the C string there or earlier |
| WriteBuffer.KernelText | blue_pig_module.c:134-147 | the text reaching `strstrip` is a prefix of the copied bytes, at most 11 long |
| WriteBuffer.FillBuffer | blue_pig_module.c:125-144 | the byte-by-byte copy into `kbuf` and the terminator store; reports the uncopied count and, on success, the C string of the copied bytes |
| WriteBuffer.WriteInput | blue_pig_module.c:134-153 | -EFAULT exactly when bytes are left uncopied; otherwise the parse result; with a 64-bit `long` the range error is never returned; parsed values are longs |
| WriteBuffer.OnlyCopiedBytesMatter | blue_pig_module.c:134 | bytes after the first 11 never influence the outcome of a write |
| WriteBuffer.EchoRoundTrip | blue_pig_module.c:147-153 | writing the decimal text of a value plus a newline, if it fits in 11 bytes, yields that value |
| WriteBuffer.OversizedWriteTruncated | blue_pig_module.c:134-150 | a write whose first 11 bytes are the text of a value yields that value, whatever follows |
| Decimal.ParseLong | blue_pig_module.c:150-153 | the base-10 parse of a long: success gives a value in the 64-bit `long` range; failure is -EINVAL or -ERANGE |
| Decimal.ParseDigits | blue_pig_module.c:150 | the digit parse under the signed and unsigned parses: success gives a value at most ULLONG_MAX; failure is -EINVAL or -ERANGE; text not starting with a digit is -EINVAL |
| Decimal.ParseULong | blue_pig_module.c:150 | the unsigned parse, an optional `+` before the digits: success gives a value at most ULLONG_MAX; failure is -EINVAL or -ERANGE |
| Decimal.MinusPlusRefused | blue_pig_module.c:150 | a `-` followed by a `+` is -EINVAL |
| Decimal.ShortTextInRange | blue_pig_module.c:33 | with a 64-bit `long`, text of at most 11 characters never draws -ERANGE |
| Decimal.ParseDigitsRun | blue_pig_module.c:150 | a run of digits parses to its value |
| Decimal.ParseDigitsRunNewline | blue_pig_module.c:150 | a run of digits followed by one newline parses to the value of the digits |
| Decimal.ParseULongRun | blue_pig_module.c:150 | through the unsigned parse too, a run of digits, with or without one trailing newline, parses to its value |
| Decimal.ParseFormat | blue_pig_module.c:78 | parsing the `%ld` text of any long, with or without a trailing newline, gives back that long |
| Decimal.NatDigits | blue_pig_module.c:78 | the digits of a natural number: non-empty, no leading zero, and their value is the number |
| Decimal.DigitsValue | blue_pig_module.c:150 | the value of k decimal digits is below 10^k |
| Decimal.DigitPrefixLength | blue_pig_module.c:150 | the length of the leading digit run: all digits before it, a non-digit at it |
| Decimal.Format | blue_pig_module.c:78 | `%ld` text: non-empty, ends in a digit, starts with `-` exactly for negative values |
| Decimal.StripTrailing | blue_pig_module.c:147 | the longest prefix not ending in whitespace; everything cut is whitespace |
| Decimal.StripLeading | blue_pig_module.c:147 | the longest suffix not starting with whitespace; everything cut is whitespace |
| Decimal.Strip | blue_pig_module.c:147 | `strstrip`: the result neither starts nor ends with whitespace |
| Decimal.StripTrimmed | blue_pig_module.c:147 | text that neither starts nor ends with whitespace is left alone |
| Decimal.StripTrailingSpace | blue_pig_module.c:147 | one whitespace character after trimmed text, such as echo's newline, is removed |

## Findings

| source | as written | input that shows it | evidently intended | confidence | as-written member | corrected member |
|---|---|---|---|---|---|---|
| blue_pig_module.c:138 | `written = min_t(unsigned long, size, BUF_SIZE)`, then `kbuf[written] = '\0'` at line 144 | any write of 12 bytes or more, such as `echo "123456789012"` (13 bytes): the index is 12, one past the 12-byte `kbuf`, and `kbuf[11]` is never filled | terminate right after the bytes copied, `min(size, BUF_SIZE-1)` | high, not executed | WriteBuffer.FirstTerminatorInBoundsIff | WriteBuffer.TerminatorIndex |
| blue_pig_module.c:191 | `written = min_t(unsigned long, size, BUF_SIZE) - left`, then `kbuf[written] = '\0'` at line 195; `left` is 0 there | any write of 12 bytes or more to the second entry | the same: `min(size, BUF_SIZE-1)` | high, not executed | WriteBuffer.SecondTerminatorInBoundsIff | WriteBuffer.FillBuffer |

`FirstTerminatorAsWritten` and `SecondTerminatorAsWritten` transcribe the as-written index
expressions. The lemmas named in the table show these indices reach `BUF_SIZE` for such sizes.
`FillBuffer` and both write handlers use the corrected index. The store is proved in bounds, and the
buffer then holds the copied bytes as a C string.

## Left out

- `list_lock` and RCU are not modelled: `rcu_read_lock`/`rcu_read_unlock` in start and stop, the
  `_rcu` list macros, and the deferred frees `kfree_rcu`, `call_rcu` and `free_list_entry`. Their
  purpose is concurrency and memory reclamation. Whole writes run one after another, and a read sees
  the list fixed for its whole length.
- The race on the global `data` is not modelled. `strict_strtol` stores into `data` outside the lock
  (lines 150 and 201). Line 159 copies `data` into the candidate entry, also outside the lock. The
  scans read `data` under the lock (lines 163 and 209). So two concurrent `first_j_write` calls can
  link an entry whose value differs from the value the scan looked for, putting a duplicate on the
  list. ListOps.ApplyPreservesUnique and BluePig.JList.Valid hold only for writes that do not overlap.
- `j_seq_stop` only drops the RCU read lock, so it has no counterpart.
- `copy_from_user` is a kernel routine. It is a parameter: the bytes readable at the user address.
  It copies those bytes and reports how many of the requested bytes it could not copy. The copy is
  not modelled when it fails part-way, since the handler then returns -EFAULT without using `kbuf`.
- `strict_strtol` and `strstrip` are kernel library routines whose source is not part of this model.
- Decimal.ParseLong is written after the forms the kernel's kstrtol accepts in base 10 on a 64-bit
  `long`: one optional sign (`-` or `+`), digits, and at most one newline. It is not claimed to be
  exactly the kernel routine.
- Decimal.ShortTextInRange: its result depends on the 64-bit `long`. The comment at line 33 sizes
  `kbuf` for a 32-bit `long`, where 11 characters can exceed the range and draw -ERANGE.
- Decimal.IsSpace follows the kernel's ctype table: codes 9 to 13, 32 and 160.
- The unchecked `kmalloc` at line 158 is assumed to succeed. The allocator, and the candidate entry as
  an object, are not modelled: a duplicate write simply leaves the list as it was.
- `size_t` and `ssize_t` widths are not modelled: `size` is a natural number. The conversion of a
  very large `size` to a negative return value is not modelled either.
- The as-written store of the NUL past `kbuf`, and the parse of the never-filled `kbuf[11]` that
  follows it for writes of 12 bytes or more, are undefined behaviour in C and have no model beyond
  the index lemmas under "## Findings".
- WriteBuffer.OversizedWriteTruncated: for sizes of 12 or more it describes the corrected write
  path. As written, `kbuf[11]` is never filled and the NUL lands past `kbuf`, so the outcome is
  undefined.
- BluePig.JList.FirstWrite: for writes of 12 bytes or more it follows the corrected terminator
  index, so it describes the corrected handler rather than the undefined as-written one.
- BluePig.JList.SecondWrite: likewise for writes of 12 bytes or more.
- The global `data` carries the parsed value into the locked scan. The model passes that value
  directly, which is exact for writes that do not overlap (see the race above).
- `printk` output is not modelled. Neither are `seq_printf` buffering or `seq_read` paging.
  SeqIter.Read stands for one full read that does not run out of buffer. The `pos` lemmas describe
  what a restart at a given position would see.
- Not modelled, as registration and I/O plumbing: proc entry creation and removal, the
  rollback in `init_j_module`, the `seq_open` wiring in the open handlers, `seq_read`,
  `seq_lseek`, `seq_release`, and the `LINUX_VERSION_CODE` conditionals.
