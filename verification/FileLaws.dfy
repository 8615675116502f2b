/**
 What the file operations do, said without their definitions: which bytes a read gives, what a write
 leaves, what an open creates or empties, and what stays as it was. The laws are about the local
 model; by RemoteFiles.RunAgrees and ConcurrentFiles they are laws of the remote service.
 */
module FileLaws {
  import opened Codec
  import opened Commands
  import opened Files
  import opened RemoteFiles

  /** `id` is open on an existing file. */
  predicate OpenOn(l: Local, id: int, path: blob) {
    id in l.tab.descs && l.tab.descs[id].path == path && path in l.tab.files
  }

  predicate OpenAt(l: Local, id: int, path: blob, pos: nat) {
    OpenOn(l, id, path) && l.tab.descs[id].pos == pos
  }

  predicate CanRead(l: Local, id: int) {
    id in l.tab.descs && l.tab.descs[id].readable
  }

  predicate CanWrite(l: Local, id: int) {
    id in l.tab.descs && l.tab.descs[id].writable
  }

  // ---------- open ----------

  lemma OpenFails(l: Local, path: blob, flags: int32, mode: int32)
    requires path !in l.tab.files && flags / 0x40 % 2 == 0
    ensures LocalCall(l, OpOpen(path, flags, mode)) == (l, Failed(ENOENT))
  {
  }

  lemma OpenKeepsFiles(l: Local, path: blob, flags: int32, mode: int32)
    requires path in l.tab.files && flags / 0x200 % 2 == 0
    ensures LocalCall(l, OpOpen(path, flags, mode)).0.tab.files == l.tab.files
  {
    assert l.tab.files[path := l.tab.files[path]] == l.tab.files;
  }

  /** O_TRUNC on an existing path, O_CREAT on a missing one: exactly that path is empty afterwards. */
  lemma OpenEmpties(l: Local, path: blob, flags: int32, mode: int32)
    requires if path in l.tab.files then flags / 0x200 % 2 == 1 else flags / 0x40 % 2 == 1
    ensures var files := LocalCall(l, OpOpen(path, flags, mode)).0.tab.files;
            && path in files && files[path] == []
            && files.Keys == l.tab.files.Keys + {path}
            && (forall q :: q in l.tab.files && q != path ==> files[q] == l.tab.files[q])
  {
  }

  /** A successful open gives the next handle, at the start of the file and in the access mode asked
      for, and changes no other handle. */
  lemma OpenGivesAHandle(l: Local, path: blob, flags: int32, mode: int32)
    requires (path in l.tab.files || flags / 0x40 % 2 == 1) && l.next < 0x8000_0000
    ensures var (l', r) := LocalCall(l, OpOpen(path, flags, mode));
            && r == Ok(l.next, []) && l'.next == l.next + 1
            && OpenAt(l', l.next, path, 0)
            && (CanRead(l', l.next) <==> flags % 4 == 0 || flags % 4 == 2)
            && (CanWrite(l', l.next) <==> flags % 4 == 1 || flags % 4 == 2)
            && l'.tab.descs.Keys == l.tab.descs.Keys + {l.next}
            && (forall i :: i in l.tab.descs && i != l.next ==> l'.tab.descs[i] == l.tab.descs[i])
  {
  }

  /** The access modes by name: O_RDONLY reads only, O_WRONLY writes only, O_RDWR does both. */
  lemma AccessModes(l: Local, path: blob, mode: int32, id: int32, size: uint32, bytes: blob)
    requires path in l.tab.files && l.next == id
    ensures var (o_rdonly, o_wronly, o_rdwr) := (0, 1, 2);
            var r := LocalCall(l, OpOpen(path, o_rdonly, mode)).0;
            var w := LocalCall(l, OpOpen(path, o_wronly, mode)).0;
            var b := LocalCall(l, OpOpen(path, o_rdwr, mode)).0;
            && LocalCall(r, OpRead(id, size)).1.Ok? && LocalCall(r, OpWrite(id, bytes)).1 == Failed(EBADF)
            && LocalCall(w, OpWrite(id, bytes)).1.Ok? && LocalCall(w, OpRead(id, size)).1 == Failed(EBADF)
            && LocalCall(b, OpRead(id, size)).1.Ok? && LocalCall(b, OpWrite(id, bytes)).1.Ok?
  {
  }

  // ---------- What fails, exactly ----------

  lemma FailsExactly(l: Local, id: int32, size: uint32, offset: int64, bytes: blob)
    ensures LocalCall(l, OpRead(id, size)).1 == Failed(EBADF) <==> !CanRead(l, id)
    ensures LocalCall(l, OpWrite(id, bytes)).1 == Failed(EBADF) <==> !CanWrite(l, id)
    ensures LocalCall(l, OpPread(id, size, offset)).1 == Failed(EBADF) <==> 0 <= offset && !CanRead(l, id)
    ensures LocalCall(l, OpPwrite(id, offset, bytes)).1 == Failed(EBADF) <==> 0 <= offset && !CanWrite(l, id)
    ensures LocalCall(l, OpPread(id, size, offset)).1 == Failed(EINVAL) <==> offset < 0
    ensures LocalCall(l, OpPwrite(id, offset, bytes)).1 == Failed(EINVAL) <==> offset < 0
    ensures LocalCall(l, OpClose(id)).1 == Failed(EBADF) <==> id !in l.tab.descs
  {
  }

  /** A failed call changes nothing. */
  lemma FailuresChangeNothing(l: Local, op: Op)
    requires LocalCall(l, op).1.Failed?
    ensures LocalCall(l, op).0 == l
  {
  }

  // ---------- close ----------

  /** Closing an open id succeeds, forgets exactly that id, and leaves the files alone; from then on
      the id is good for nothing. */
  lemma CloseForgets(l: Local, id: int32, size: uint32, bytes: blob)
    requires id in l.tab.descs
    ensures var (l', r) := LocalCall(l, OpClose(id));
            && r == Ok(0, []) && l'.tab.files == l.tab.files
            && l'.tab.descs.Keys == l.tab.descs.Keys - {id}
            && (forall i :: i in l'.tab.descs ==> l'.tab.descs[i] == l.tab.descs[i])
            && LocalCall(l', OpClose(id)).1 == Failed(EBADF)
            && LocalCall(l', OpRead(id, size)).1 == Failed(EBADF)
            && LocalCall(l', OpWrite(id, bytes)).1 == Failed(EBADF)
  {
  }

  // ---------- pread and pwrite ----------

  function Available(content: seq<byte>, size: nat, offset: nat): (n: nat)
    ensures offset < |content| ==> offset + n <= |content|
  {
    if offset < |content| then Min(Min(size, MAX_RW), |content| - offset) else 0
  }

  /** pread gives all the bytes there are up to the size asked for, and moves nothing. */
  lemma PreadExactly(l: Local, id: int32, path: blob, size: uint32, offset: int64)
    requires OpenOn(l, id, path) && CanRead(l, id) && 0 <= offset
    ensures var c := l.tab.files[path];
            var n := Available(c, size, offset);
            LocalCall(l, OpPread(id, size, offset)) == (l, Ok(n, if n == 0 then [] else c[offset..offset + n]))
  {
  }

  /** pwrite puts its bytes where it was told to: there they are, the rest of the file is as it was
      with zeros in a gap, and no position, other file or handle has changed. */
  lemma PwriteExactly(l: Local, id: int32, path: blob, offset: int64, bytes: blob)
    requires OpenOn(l, id, path) && CanWrite(l, id) && 0 <= offset && 0 < |bytes| <= MAX_RW
    ensures var (l', r) := LocalCall(l, OpPwrite(id, offset, bytes));
            && r == Ok(|bytes|, []) && l'.tab.descs == l.tab.descs && l'.next == l.next
            && l'.tab.files.Keys == l.tab.files.Keys
            && (forall q :: q in l.tab.files && q != path ==> l'.tab.files[q] == l.tab.files[q])
            && Holds(l'.tab.files[path], l.tab.files[path], offset, bytes)
  {
  }

  /** `now` is `was` with `bytes` put at `offset`. */
  ghost predicate Holds(now: seq<byte>, was: seq<byte>, offset: nat, bytes: seq<byte>) {
    && |now| == (if offset + |bytes| > |was| then offset + |bytes| else |was|)
    && now[offset..offset + |bytes|] == bytes
    && (forall i :: 0 <= i < |now| && !(offset <= i < offset + |bytes|) ==>
          now[i] == (if i < |was| then was[i] else 0))
  }

  /** What pwrite wrote, pread reads back, through the same handle or any other on the same file. */
  lemma WrittenIsRead(l: Local, id: int32, reader: int32, path: blob, offset: int64, bytes: blob)
    requires OpenOn(l, id, path) && CanWrite(l, id) && OpenOn(l, reader, path) && CanRead(l, reader)
    requires 0 <= offset && 0 < |bytes| <= MAX_RW
    ensures var l' := LocalCall(l, OpPwrite(id, offset, bytes)).0;
            LocalCall(l', OpPread(reader, |bytes|, offset)).1 == Ok(|bytes|, bytes)
  {
    PwriteExactly(l, id, path, offset, bytes);
    PreadExactly(LocalCall(l, OpPwrite(id, offset, bytes)).0, reader, path, |bytes|, offset);
  }

  /** A call on one handle touches no other file and no other handle. */
  lemma OthersUntouched(l: Local, op: Op, other: int, q: blob)
    requires !op.OpOpen? && op.id != other && op.id in l.tab.descs
    requires q != l.tab.descs[op.id].path
    ensures var l' := LocalCall(l, op).0;
            && (other in l'.tab.descs <==> other in l.tab.descs)
            && (other in l.tab.descs ==> l'.tab.descs[other] == l.tab.descs[other])
            && (q in l'.tab.files <==> q in l.tab.files)
            && (q in l.tab.files ==> l'.tab.files[q] == l.tab.files[q])
  {
  }

  // ---------- Sequential reads ----------

  function Total(sizes: seq<uint32>): nat {
    if sizes == [] then 0 else sizes[0] + Total(sizes[1..])
  }

  /** The bytes a series of reads gives, in order. */
  function ReadAll(l: Local, id: int32, sizes: seq<uint32>): (Local, seq<byte>)
    decreases |sizes|
  {
    if sizes == [] then (l, [])
    else
      var (l1, r) := LocalCall(l, OpRead(id, sizes[0]));
      var (l2, rest) := ReadAll(l1, id, sizes[1..]);
      (l2, (if r.Ok? then r.bytes else []) + rest)
  }

  lemma ReadOnce(l: Local, id: int32, path: blob, pos: nat, size: uint32)
    requires OpenAt(l, id, path, pos) && CanRead(l, id)
    ensures var (l', r) := LocalCall(l, OpRead(id, size));
            var c := l.tab.files[path];
            var n := Available(c, size, pos);
            && r == Ok(n, if n == 0 then [] else c[pos..pos + n])
            && l'.tab.files == l.tab.files && OpenAt(l', id, path, pos + n) && CanRead(l', id)
  {
  }

  /** From `l` to `l'` the handle has moved from `pos` to `end`, and `bytes` is what lies between. */
  ghost predicate Covers(l: Local, l': Local, id: int32, path: blob, pos: nat, end: nat, bytes: seq<byte>) {
    && OpenAt(l, id, path, pos) && CanRead(l, id) && OpenAt(l', id, path, end) && CanRead(l', id)
    && l'.tab.files == l.tab.files
    && pos <= end <= |l.tab.files[path]| && bytes == l.tab.files[path][pos..end]
  }

  lemma CoversJoin(l: Local, l1: Local, l2: Local, id: int32, path: blob, pos: nat, mid: nat, end: nat,
                   a: seq<byte>, b: seq<byte>)
    requires Covers(l, l1, id, path, pos, mid, a) && Covers(l1, l2, id, path, mid, end, b)
    ensures Covers(l, l2, id, path, pos, end, a + b)
  {
    SplitSlice(l.tab.files[path], pos, mid, end);
  }

  lemma CoversNothing(l: Local, id: int32, path: blob, pos: nat)
    requires OpenAt(l, id, path, pos) && CanRead(l, id) && pos <= |l.tab.files[path]|
    ensures Covers(l, l, id, path, pos, pos, [])
  {
  }

  /** Where reads of these sizes from `pos` on come to. */
  function EndOf(l: Local, path: blob, pos: nat, sizes: seq<uint32>): nat
    requires path in l.tab.files
  {
    Min(pos + Total(sizes), |l.tab.files[path]|)
  }

  /** However a file is cut into reads, each goes on where the one before ended: together they give
      what lies between the first position and the last, and no byte twice. */
  lemma {:induction false} ReadsContinue(l: Local, id: int32, path: blob, pos: nat, sizes: seq<uint32>) returns (end: nat)
    requires OpenAt(l, id, path, pos) && CanRead(l, id) && pos <= |l.tab.files[path]|
    requires forall i :: 0 <= i < |sizes| ==> sizes[i] <= MAX_RW
    ensures end == EndOf(l, path, pos, sizes)
    ensures Covers(l, ReadAll(l, id, sizes).0, id, path, pos, end, ReadAll(l, id, sizes).1)
    decreases |sizes|
  {
    if sizes == [] {
      end := pos;
      CoversNothing(l, id, path, pos);
    } else {
      var l1, mid, a := FirstRead(l, id, path, pos, sizes);
      end := ReadsContinue(l1, id, path, mid, sizes[1..]);
      ReadsJoin(l, l1, id, path, pos, mid, end, a, sizes);
    }
  }

  /** The first read and all the others. */
  lemma ReadsJoin(l: Local, l1: Local, id: int32, path: blob, pos: nat, mid: nat, end: nat, a: seq<byte>, sizes: seq<uint32>)
    requires sizes != [] && Covers(l, l1, id, path, pos, mid, a)
    requires var (l2, b) := ReadAll(l1, id, sizes[1..]);
             Covers(l1, l2, id, path, mid, end, b) && ReadAll(l, id, sizes) == (l2, a + b)
    ensures Covers(l, ReadAll(l, id, sizes).0, id, path, pos, end, ReadAll(l, id, sizes).1)
  {
    var (l2, b) := ReadAll(l1, id, sizes[1..]);
    CoversJoin(l, l1, l2, id, path, pos, mid, end, a, b);
  }

  lemma FirstRead(l: Local, id: int32, path: blob, pos: nat, sizes: seq<uint32>)
    returns (l1: Local, mid: nat, bytes: seq<byte>)
    requires OpenAt(l, id, path, pos) && CanRead(l, id) && pos <= |l.tab.files[path]|
    requires sizes != [] && sizes[0] <= MAX_RW
    ensures Covers(l, l1, id, path, pos, mid, bytes)
    ensures ReadAll(l, id, sizes) == (ReadAll(l1, id, sizes[1..]).0, bytes + ReadAll(l1, id, sizes[1..]).1)
    ensures EndOf(l1, path, mid, sizes[1..]) == EndOf(l, path, pos, sizes)
  {
    var c := l.tab.files[path];
    var n := Available(c, sizes[0], pos);
    l1, mid := LocalCall(l, OpRead(id, sizes[0])).0, pos + n;
    ReadOnce(l, id, path, pos, sizes[0]);
    bytes := if n == 0 then [] else c[pos..mid];
    assert n == 0 ==> c[pos..mid] == [];
  }

  /** From open to end of file: reads that ask for enough give the whole file. */
  lemma ReadsToTheEnd(l: Local, path: blob, flags: int32, mode: int32, sizes: seq<uint32>)
    requires path in l.tab.files && flags / 0x200 % 2 == 0 && (flags % 4 == 0 || flags % 4 == 2)
    requires l.next < 0x8000_0000 && Total(sizes) >= |l.tab.files[path]|
    requires forall i :: 0 <= i < |sizes| ==> sizes[i] <= MAX_RW
    ensures ReadBack(l, path, flags, mode, sizes) == l.tab.files[path]
  {
    OpenKeepsFiles(l, path, flags, mode);
    OpenGivesAHandle(l, path, flags, mode);
    ReadsFromStart(LocalCall(l, OpOpen(path, flags, mode)).0, l.next, path, sizes);
  }

  lemma ReadsFromStart(l: Local, id: int32, path: blob, sizes: seq<uint32>)
    requires OpenAt(l, id, path, 0) && CanRead(l, id) && Total(sizes) >= |l.tab.files[path]|
    requires forall i :: 0 <= i < |sizes| ==> sizes[i] <= MAX_RW
    ensures ReadAll(l, id, sizes).1 == l.tab.files[path]
  {
    var c := l.tab.files[path];
    var end := ReadsContinue(l, id, path, 0, sizes);
    assert c[0..|c|] == c;
  }

  // ---------- Sequential writes ----------

  function Flatten(chunks: seq<blob>): seq<byte> {
    if chunks == [] then [] else chunks[0] + Flatten(chunks[1..])
  }

  function WriteAll(l: Local, id: int32, chunks: seq<blob>): Local
    decreases |chunks|
  {
    if chunks == [] then l else WriteAll(LocalCall(l, OpWrite(id, chunks[0])).0, id, chunks[1..])
  }

  lemma WriteOnce(l: Local, id: int32, path: blob, pos: nat, bytes: blob)
    requires OpenAt(l, id, path, pos) && CanWrite(l, id) && |bytes| <= MAX_RW
    ensures var (l', r) := LocalCall(l, OpWrite(id, bytes));
            && r == Ok(|bytes|, []) && OpenAt(l', id, path, pos + |bytes|) && CanWrite(l', id) && l'.next == l.next
            && l'.tab.files.Keys == l.tab.files.Keys
            && (forall q :: q in l.tab.files && q != path ==> l'.tab.files[q] == l.tab.files[q])
            && (if bytes == [] then l'.tab.files[path] == l.tab.files[path]
                else Holds(l'.tab.files[path], l.tab.files[path], pos, bytes))
  {
    assert bytes[..|bytes|] == bytes;
  }

  /** Two stretches written one behind the other are one stretch. */
  lemma HoldsBoth(was: seq<byte>, mid: seq<byte>, now: seq<byte>, pos: nat, a: seq<byte>, b: seq<byte>)
    requires a != [] && Holds(mid, was, pos, a)
    requires if b == [] then now == mid else Holds(now, mid, pos + |a|, b)
    ensures Holds(now, was, pos, a + b)
  {
    if b != [] {
      forall i | pos <= i < pos + |a| + |b| ensures now[i] == (a + b)[i - pos] {
        if i < pos + |a| {
          assert now[i] == mid[i] == mid[pos..pos + |a|][i - pos];
        } else {
          assert now[i] == now[pos + |a|..pos + |a| + |b|][i - pos - |a|];
        }
      }
    } else {
      assert a + b == a;
    }
  }

  /** Consecutive writes land one behind the other, whatever their sizes. */
  lemma {:induction false} WritesContinue(l: Local, id: int32, path: blob, pos: nat, chunks: seq<blob>)
    requires OpenAt(l, id, path, pos) && CanWrite(l, id)
    requires forall i :: 0 <= i < |chunks| ==> |chunks[i]| <= MAX_RW
    ensures var l' := WriteAll(l, id, chunks);
            var bytes := Flatten(chunks);
            && OpenAt(l', id, path, pos + |bytes|) && CanWrite(l', id) && l'.next == l.next
            && l'.tab.files.Keys == l.tab.files.Keys
            && (forall q :: q in l.tab.files && q != path ==> l'.tab.files[q] == l.tab.files[q])
            && (if bytes == [] then l'.tab.files[path] == l.tab.files[path]
                else Holds(l'.tab.files[path], l.tab.files[path], pos, bytes))
    decreases |chunks|
  {
    if chunks != [] {
      var a, rest := chunks[0], chunks[1..];
      var l1 := FirstWrite(l, id, path, pos, chunks);
      WritesContinue(l1, id, path, pos + |a|, rest);
      var now := WriteAll(l1, id, rest).tab.files[path];
      WritesJoin(l.tab.files[path], l1.tab.files[path], now, pos, a, Flatten(rest));
    }
  }

  lemma FirstWrite(l: Local, id: int32, path: blob, pos: nat, chunks: seq<blob>) returns (l1: Local)
    requires OpenAt(l, id, path, pos) && CanWrite(l, id) && chunks != [] && |chunks[0]| <= MAX_RW
    ensures OpenAt(l1, id, path, pos + |chunks[0]|) && CanWrite(l1, id) && l1.next == l.next
    ensures l1.tab.files.Keys == l.tab.files.Keys
    ensures forall q :: q in l.tab.files && q != path ==> l1.tab.files[q] == l.tab.files[q]
    ensures if chunks[0] == [] then l1.tab.files[path] == l.tab.files[path]
            else Holds(l1.tab.files[path], l.tab.files[path], pos, chunks[0])
    ensures WriteAll(l, id, chunks) == WriteAll(l1, id, chunks[1..])
    ensures Flatten(chunks) == chunks[0] + Flatten(chunks[1..])
  {
    l1 := LocalCall(l, OpWrite(id, chunks[0])).0;
    WriteOnce(l, id, path, pos, chunks[0]);
  }

  lemma WritesJoin(was: seq<byte>, mid: seq<byte>, now: seq<byte>, pos: nat, a: seq<byte>, b: seq<byte>)
    requires if a == [] then mid == was else Holds(mid, was, pos, a)
    requires if b == [] then now == mid else Holds(now, mid, pos + |a|, b)
    ensures if a + b == [] then now == was else Holds(now, was, pos, a + b)
  {
    if a != [] {
      HoldsBoth(was, mid, now, pos, a, b);
    } else {
      assert a + b == b;
    }
  }

  /** The round trip of a whole file: create or empty it, write it in any pieces, open it again, read
      it in any pieces that ask for enough. */
  lemma FileRoundTrip(l: Local, path: blob, flags: int32, again: int32, mode: int32, chunks: seq<blob>, sizes: seq<uint32>)
    requires if path in l.tab.files then flags / 0x200 % 2 == 1 else flags / 0x40 % 2 == 1
    requires (flags % 4 == 1 || flags % 4 == 2)
    requires l.next + 1 < 0x8000_0000
    requires forall i :: 0 <= i < |chunks| ==> |chunks[i]| <= MAX_RW
    requires (forall i :: 0 <= i < |sizes| ==> sizes[i] <= MAX_RW) && Total(sizes) >= |Flatten(chunks)|
    requires again / 0x200 % 2 == 0 && (again % 4 == 0 || again % 4 == 2)
    ensures ReadBack(Written(l, path, flags, mode, chunks), path, again, mode, sizes) == Flatten(chunks)
  {
    CreateAndWrite(l, path, flags, mode, chunks);
    ReadsToTheEnd(Written(l, path, flags, mode, chunks), path, again, mode, sizes);
  }

  /** A file opened, and written in pieces. */
  function Written(l: Local, path: blob, flags: int32, mode: int32, chunks: seq<blob>): Local {
    WriteAll(LocalCall(l, OpOpen(path, flags, mode)).0, IdAt(l.next), chunks)
  }

  /** A file opened for reading, and read in pieces. */
  function ReadBack(l: Local, path: blob, flags: int32, mode: int32, sizes: seq<uint32>): seq<byte> {
    ReadAll(LocalCall(l, OpOpen(path, flags, mode)).0, IdAt(l.next), sizes).1
  }

  lemma CreateAndWrite(l: Local, path: blob, flags: int32, mode: int32, chunks: seq<blob>)
    requires if path in l.tab.files then flags / 0x200 % 2 == 1 else flags / 0x40 % 2 == 1
    requires (flags % 4 == 1 || flags % 4 == 2) && l.next < 0x8000_0000
    requires forall i :: 0 <= i < |chunks| ==> |chunks[i]| <= MAX_RW
    ensures var written := Written(l, path, flags, mode, chunks);
            path in written.tab.files && written.tab.files[path] == Flatten(chunks) && written.next == l.next + 1
  {
    var start := LocalCall(l, OpOpen(path, flags, mode)).0;
    OpenEmpties(l, path, flags, mode);
    OpenGivesAHandle(l, path, flags, mode);
    WritesFillAnEmptyFile(start, l.next, path, chunks);
  }

  lemma WritesFillAnEmptyFile(l: Local, id: int32, path: blob, chunks: seq<blob>)
    requires OpenAt(l, id, path, 0) && CanWrite(l, id) && l.tab.files[path] == []
    requires forall i :: 0 <= i < |chunks| ==> |chunks[i]| <= MAX_RW
    ensures var l' := WriteAll(l, id, chunks);
            path in l'.tab.files && l'.tab.files[path] == Flatten(chunks) && l'.next == l.next
  {
    WritesContinue(l, id, path, 0, chunks);
    var now, bytes := WriteAll(l, id, chunks).tab.files[path], Flatten(chunks);
    if bytes != [] {
      assert now == now[0..0 + |bytes|];
    }
  }

  // ---------- The same of the remote service ----------

  /** A remote pread gets back what a remote pwrite wrote, and leaves the rest of the buffer alone. */
  lemma RemoteReadsBack(w: Worker, l: Local, id: int32, path: blob, offset: int64, bytes: blob, buffer: seq<byte>,
                        env: Env, env': Env)
    requires Sim(w, l) && w.nextId < 0x8000_0000 && OpenOn(l, id, path) && CanRead(l, id) && CanWrite(l, id)
    requires 0 <= offset && 0 < |bytes| <= MAX_RW && |bytes| <= |buffer|
    ensures var (w', written) := RemoteCall(w, OpPwrite(id, offset, bytes), [], env);
            var a := RemoteCall(w', OpPread(id, |bytes|, offset), buffer, env').1;
            && written.Answer? && written.value == |bytes|
            && a.Answer? && a.value == |bytes| && a.buffer == bytes + buffer[|bytes|..]
  {
    var put, get := OpPwrite(id, offset, bytes), OpPread(id, |bytes|, offset);
    RemoteCallAgrees(w, l, put, [], env);
    PwriteExactly(l, id, path, offset, bytes);
    WrittenIsRead(l, id, id, path, offset, bytes);
    KeepsCounter(w, put, env);
    RemoteCallAgrees(RemoteCall(w, put, [], env).0, LocalCall(l, put).0, get, buffer, env');
  }

  lemma KeepsCounter(w: Worker, op: Op, env: Env)
    requires !op.OpOpen? && ReadSize(op) == 0
    ensures RemoteCall(w, op, [], env).0.nextId == w.nextId
  {
    RequestRoundTrip(op);
  }

  /** Closing an open id answers 1. */
  lemma RemoteCloseAnswers(w: Worker, l: Local, id: int32, env: Env)
    requires Sim(w, l) && w.nextId < 0x8000_0000
    ensures var a := RemoteCall(w, OpClose(id), [], env).1;
            && a.Answer? && (a.value == 1 <==> id in l.tab.descs) && (a.value == 0 <==> id !in l.tab.descs)
            && (id !in l.tab.descs ==> a.errno == EBADF)
  {
    RemoteCallAgrees(w, l, OpClose(id), [], env);
  }

  // ---------- The other replies ----------

  /** A disconnect (type 0) is acknowledged with an empty result, a type the Worker does not know
      (above 20) is answered as unknown; neither touches the files or the table. */
  lemma FixedReplies(w: Worker, data: seq<byte>, typ: byte, env: Env)
    ensures Serve(w, Request(0, data), env) == (w, Reply(0, []))
    ensures 20 < typ ==> Serve(w, Request(typ, data), env) == (w, Reply(2, []))
  {
  }

  /** A reply that is not a result reaches the caller as an exception. */
  lemma OnlyResultsReturn(op: Op, reply: Reply, buffer: seq<byte>)
    requires ReadSize(op) <= |buffer| && reply.typ != 0
    ensures DecodeReply(op, reply, buffer) == Throws
  {
  }

  /** The counter's values are its count modulo 2^32, as a signed number. */
  lemma IdAtWraps(n: nat)
    ensures (n - IdAt(n)) % LIMIT == 0
    ensures n < 0x8000_0000 ==> IdAt(n) == n
  {
    var m := n % LIMIT;
    assert n == LIMIT * (n / LIMIT) + m;
    ModUnique(n - IdAt(n), LIMIT, if m < 0x8000_0000 then n / LIMIT else n / LIMIT + 1, 0);
  }

  /** The command types on the wire. */
  lemma WireNumbers(op: Op)
    ensures TypeOf(op) == match op
              case OpOpen(_, _, _) => 10
              case OpClose(_) => 11
              case OpRead(_, _) => 12
              case OpPread(_, _, _) => 13
              case OpWrite(_, _) => 14
              case OpPwrite(_, _, _) => 15
  {
  }
}
