/**
 Directory listings as functions: the payload of one readdir reply, and what the client's parsing
 loop makes of any payload.
 */
module Listing {
  import opened Codec
  import opened Commands

  const NAME_MAX: nat := 255
  const ENTRY_MAX: nat := 9 + NAME_MAX     // bytes one entry takes on the wire at most

  type Errno = e: int | 0 <= e < 0x8000_0000

  type name = s: seq<byte> | |s| <= 255 witness []

  // On the Worker's side `ino` is a 64-bit number; the client gets its low 32 bits.
  datatype Dirent = Dirent(ino: nat, typ: byte, name: name)

  // What the client knows of an entry: any string the payload holds.
  datatype DirEntry = DirEntry(inode: uint32, typ: byte, name: blob)

  function Received(e: Dirent): DirEntry {
    DirEntry(e.ino % LIMIT, e.typ, e.name)
  }

  function ReceivedAll(es: seq<Dirent>): (r: seq<DirEntry>)
    ensures |r| == |es| && forall i :: 0 <= i < |es| ==> r[i] == Received(es[i])
  {
    seq(|es|, i requires 0 <= i < |es| => Received(es[i]))
  }

  function EntryFields(e: Dirent): seq<Field> {
    [U32(e.ino % LIMIT), U8(e.typ), Blob(e.name)]
  }

  function EntryBytes(e: Dirent): seq<byte> {
    Encode(EntryFields(e))
  }

  function EntriesBytes(es: seq<Dirent>): seq<byte> {
    if es == [] then [] else EntriesBytes(es[..|es| - 1]) + EntryBytes(es[|es| - 1])
  }

  function ErrnoBytes(errno: int32): seq<byte> {
    EncodeField(I32(errno))
  }

  /** The payload of a readdir reply. */
  function Payload(es: seq<Dirent>, errno: int32): seq<byte> {
    EntriesBytes(es) + ErrnoBytes(errno)
  }

  lemma EntrySize(e: Dirent)
    ensures |EntryBytes(e)| == 9 + |e.name| <= ENTRY_MAX
  {
    EncodeThree(U32(e.ino % LIMIT), U8(e.typ), Blob(e.name));
  }

  lemma Distribute(k: nat, n: nat)
    ensures k * (n + 1) == k * n + k
  {
  }

  lemma ScaleMono(k: nat, m: nat, n: nat)
    requires m <= n
    ensures k * m <= k * n
  {
  }

  lemma {:induction false} EntriesSize(es: seq<Dirent>)
    ensures 9 * |es| <= |EntriesBytes(es)| <= ENTRY_MAX * |es|
  {
    if es != [] {
      var init := es[..|es| - 1];
      EntriesSize(init);
      EntrySize(es[|es| - 1]);
      assert ENTRY_MAX * |es| == ENTRY_MAX * |init| + ENTRY_MAX by {
        Distribute(ENTRY_MAX, |init|);
      }
      assert |EntriesBytes(es)| == |EntriesBytes(init)| + |EntryBytes(es[|es| - 1])|;
    }
  }

  lemma {:induction false} EntriesPrefix(es: seq<Dirent>, i: nat)
    requires i <= |es|
    ensures |EntriesBytes(es[..i])| <= |EntriesBytes(es)|
  {
    if i == |es| {
      assert es[..i] == es;
    } else {
      assert es[..|es| - 1][..i] == es[..i];
      EntriesPrefix(es[..|es| - 1], i);
    }
  }

  lemma EntriesSnoc(es: seq<Dirent>, e: Dirent)
    ensures EntriesBytes(es + [e]) == EntriesBytes(es) + EntryBytes(e)
  {
    assert (es + [e])[..|es|] == es;
  }

  lemma {:induction false} EntriesCons(e: Dirent, es: seq<Dirent>)
    ensures EntriesBytes([e] + es) == EntryBytes(e) + EntriesBytes(es)
  {
    if es == [] {
      assert [e] + es == [] + [e];
      EntriesSnoc([], e);
      assert EntryBytes(e) + [] == EntryBytes(e) && [] + EntryBytes(e) == EntryBytes(e);
    } else {
      var init, last := es[..|es| - 1], es[|es| - 1];
      assert [e] + es == ([e] + init) + [last] && es == init + [last];
      EntriesSnoc([e] + init, last);
      EntriesCons(e, init);
      Assoc(EntryBytes(e), EntriesBytes(init), EntryBytes(last));
    }
  }

  // ---------- The client's loop ----------

  datatype Entry = Entry(entry: DirEntry, next: nat)

  /** The three reads of one round at cursor `i`; None when one of them throws. */
  function ReadEntry(s: seq<byte>, i: nat): (r: Option<Entry>)
    requires i <= |s|
    ensures r.Some? ==> i < r.value.next <= |s|
  {
    var a := ReadField(KU32, s, i);
    if a.field.None? then None
    else
      var b := ReadField(KU8, s, a.next);
      if b.field.None? then None
      else
        var c := ReadField(KBlob, s, b.next);
        if c.field.None? then None
        else Some(Entry(DirEntry(a.field.value.u32, b.field.value.u8, c.field.value.bytes), c.next))
  }

  /** What the parsing loop returns from cursor `i` on: entries while more than four bytes are
      left, then the errno; None when a read throws. */
  function ParseFrom(s: seq<byte>, i: nat): Option<(seq<DirEntry>, int32)>
    requires i <= |s|
    decreases |s| - i
  {
    if |s| - i > 4 then
      var e := ReadEntry(s, i);
      if e.None? then None
      else
        var rest := ParseFrom(s, e.value.next);
        if rest.None? then None else Some(([e.value.entry] + rest.value.0, rest.value.1))
    else
      var errno := ReadField(KI32, s, i).field;
      if errno.None? then None else Some(([], errno.value.i32))
  }

  lemma ReadEntryBack(e: Dirent, s: seq<byte>, i: nat)
    requires i + |EntryBytes(e)| <= |s| && s[i..i + |EntryBytes(e)|] == EntryBytes(e)
    ensures ReadEntry(s, i) == Some(Entry(Received(e), i + |EntryBytes(e)|))
  {
    var a, b, c := U32(e.ino % LIMIT), U8(e.typ), Blob(e.name);
    RoundTrip(EntryFields(e), s, i);
    KindsOfThree(a, b, c);
    DecodeThree(KU32, KU8, KBlob, s, i);
    var d := Decode(KindsOf(EntryFields(e)), s, i).fields.value;
    assert d[0] == a && d[1] == b && d[2] == c;
  }

  /** For every list of entries and every errno, the empty list included, the loop recovers exactly
      the list (inodes modulo 2^32) and the errno. */
  lemma {:induction false} ListingRoundTrip(es: seq<Dirent>, errno: int32, s: seq<byte>, i: nat)
    requires i <= |s| && s[i..] == Payload(es, errno)
    ensures ParseFrom(s, i) == Some((ReceivedAll(es), errno))
    decreases |es|
  {
    if es == [] {
      ErrnoBack(es, errno, s, i);
    } else {
      PayloadCons(es, errno);
      var j := HeadBack(es[0], Payload(es[1..], errno), s, i);
      ListingRoundTrip(es[1..], errno, s, j);
      ParseStep(s, i, Entry(Received(es[0]), j));
      ReceivedCons(es);
    }
  }

  lemma HeadBack(e: Dirent, rest: seq<byte>, s: seq<byte>, i: nat) returns (j: nat)
    requires i <= |s| && s[i..] == EntryBytes(e) + rest && |rest| >= 4
    ensures i + 4 < j <= |s| && s[j..] == rest
    ensures ReadEntry(s, i) == Some(Entry(Received(e), j))
  {
    j := i + |EntryBytes(e)|;
    EntrySize(e);
    SplitSuffix(s, i, EntryBytes(e), rest);
    ReadEntryBack(e, s, i);
  }

  lemma ErrnoBack(es: seq<Dirent>, errno: int32, s: seq<byte>, i: nat)
    requires es == [] && i <= |s| && s[i..] == Payload(es, errno)
    ensures ParseFrom(s, i) == Some((ReceivedAll(es), errno))
  {
    var f := I32(errno);
    PayloadLong(es, errno);
    assert [] + ErrnoBytes(errno) == ErrnoBytes(errno);
    assert ReceivedAll(es) == [];
    assert s[i..i + |EncodeField(f)|] == s[i..];
    FieldRoundTrip(f, s, i);
  }

  lemma ReceivedCons(es: seq<Dirent>)
    requires es != []
    ensures ReceivedAll(es) == [Received(es[0])] + ReceivedAll(es[1..])
  {
  }

  lemma PayloadCons(es: seq<Dirent>, errno: int32)
    requires es != []
    ensures Payload(es, errno) == EntryBytes(es[0]) + Payload(es[1..], errno)
    ensures |Payload(es[1..], errno)| >= 4
  {
    PayloadLong(es[1..], errno);
    assert es == [es[0]] + es[1..];
    EntriesCons(es[0], es[1..]);
    Assoc(EntryBytes(es[0]), EntriesBytes(es[1..]), ErrnoBytes(errno));
  }

  lemma PayloadLong(es: seq<Dirent>, errno: int32)
    ensures |Payload(es, errno)| == |EntriesBytes(es)| + 4
  {
  }

  lemma SplitSuffix(s: seq<byte>, i: nat, a: seq<byte>, b: seq<byte>)
    requires i <= |s| && s[i..] == a + b
    ensures i + |a| + |b| == |s| && s[i..i + |a|] == a && s[i + |a|..] == b
  {
    assert s[i..i + |a|] == s[i..][..|a|];
    assert s[i + |a|..] == s[i..][|a|..];
  }

  lemma ParseStep(s: seq<byte>, i: nat, e: Entry)
    requires i + 4 < |s| && ReadEntry(s, i) == Some(e)
    ensures i < e.next <= |s|
    ensures var rest := ParseFrom(s, e.next);
            ParseFrom(s, i) == if rest.None? then None else Some(([e.entry] + rest.value.0, rest.value.1))
  {
  }

  // ---------- Batches ----------

  /** An open directory stream: the entries not read yet, and the errno ::readdir leaves when it
      returns no entry (0 at a clean end). */
  datatype Stream = Stream(left: seq<Dirent>, fault: Errno)

  function Batch(st: Stream, entries: nat): (es: seq<Dirent>) {
    if entries <= |st.left| then st.left[..entries] else st.left
  }

  function AfterBatch(st: Stream, entries: nat): Stream {
    st.(left := st.left[|Batch(st, entries)|..])
  }

  /** errno is cleared before every ::readdir; a full batch ends on a success. A request for no
      entries makes no call and reports what errno was. */
  function BatchErrno(st: Stream, entries: nat, stale: Errno): Errno {
    if entries == 0 then stale
    else if entries <= |st.left| then 0
    else st.fault
  }

  /** The arguments a readdir request holds: an id and a number of entries. */
  function ReaddirArgs(data: seq<byte>): Option<(int32, uint32)> {
    var id := ReadField(KI32, data, 0);
    if id.field.None? then None
    else
      var entries := ReadField(KU32, data, id.next).field;
      if entries.None? then None else Some((id.field.value.i32, entries.value.u32))
  }

  /** A reply before encoding: the entries and the errno. */
  datatype ListingReply = ListingReply(entries: seq<Dirent>, errno: int32)

  function ReplyBytes(r: ListingReply): seq<byte> {
    Payload(r.entries, r.errno)
  }

  /** What readdir answers on a stream, or on an unknown id. */
  function ListingFor(st: Option<Stream>, entries: nat, stale: Errno): ListingReply {
    match st
    case None => ListingReply([], EBADF)
    case Some(stream) => ListingReply(Batch(stream, entries), BatchErrno(stream, entries, stale))
  }

  /** An unknown id reads like a stream that fails at once. */
  function ListingOf(st: Option<Stream>): Stream {
    if st.Some? then st.value else Stream([], EBADF)
  }
}
