/**
 Files and descriptors, seen the same way on both sides: `Tab` is a file system with a table of
 open descriptions under numbers. With system descriptors as numbers it is the Worker's operating
 system; with the ids handed to clients it is the simple local model a remote run must agree with.
 */
module Files {
  import opened Codec
  import opened Commands

  const MAX_RW: nat := 0x7fff_f000   // most bytes one read or write transfers

  datatype Desc = Desc(path: blob, readable: bool, writable: bool, pos: nat)

  datatype Tab = Tab(files: map<blob, seq<byte>>, descs: map<int, Desc>)

  /** A system call's result: -1 with an errno, or a non-negative value (and bytes read). */
  datatype Sys = Failed(errno: int32) | Ok(value: int32, bytes: seq<byte>)

  function Min(a: nat, b: nat): nat {
    if a <= b then a else b
  }

  /** O_ACCMODE, O_CREAT and O_TRUNC of a flags word; negative words are two's complement. */
  predicate Readable(flags: int32) {
    flags % 4 == 0 || flags % 4 == 2
  }

  predicate Writable(flags: int32) {
    flags % 4 == 1 || flags % 4 == 2
  }

  predicate Creates(flags: int32) {
    flags / 0x40 % 2 == 1
  }

  // Whatever the access mode, as on Linux.
  predicate Truncates(flags: int32) {
    flags / 0x200 % 2 == 1
  }

  predicate CanOpen(t: Tab, path: blob, flags: int32) {
    path in t.files || Creates(flags)
  }

  /** open(2) under the number `key`. */
  function OpenAs(t: Tab, path: blob, flags: int32, key: int): Tab
    requires CanOpen(t, path, flags)
  {
    var content := if path !in t.files || Truncates(flags) then [] else t.files[path];
    Tab(t.files[path := content], t.descs[key := Desc(path, Readable(flags), Writable(flags), 0)])
  }

  function CloseKey(t: Tab, key: int): (Tab, Sys) {
    if key !in t.descs then (t, Failed(EBADF)) else (t.(descs := t.descs - {key}), Ok(0, []))
  }

  function Content(t: Tab, key: int): seq<byte>
    requires key in t.descs
  {
    var p := t.descs[key].path;
    if p in t.files then t.files[p] else []
  }

  /** The bytes a read of `size` at `offset` returns. */
  function Slice(content: seq<byte>, size: nat, offset: nat): (s: seq<byte>)
    ensures |s| <= size && |s| <= MAX_RW && |s| <= |content|
    ensures s == [] || (offset + |s| <= |content| && s == content[offset..offset + |s|])
    ensures offset < |content| ==> |s| == Min(Min(size, MAX_RW), |content| - offset)
  {
    if offset >= |content| then []
    else content[offset..offset + Min(Min(size, MAX_RW), |content| - offset)]
  }

  function PreadKey(t: Tab, key: int, size: uint32, offset: int64): (r: Sys)
    ensures r.Ok? ==> r.value == |r.bytes| && |r.bytes| <= size
  {
    if offset < 0 then Failed(EINVAL)
    else if key !in t.descs || !t.descs[key].readable then Failed(EBADF)
    else var s := Slice(Content(t, key), size, offset); Ok(|s|, s)
  }

  /** `content` with `bytes` put at `offset`; a gap reads as zeros. */
  function Splice(content: seq<byte>, offset: nat, bytes: seq<byte>): (r: seq<byte>)
    ensures bytes == [] ==> r == content
    ensures bytes != [] ==> |r| == (if offset + |bytes| > |content| then offset + |bytes| else |content|)
    ensures bytes != [] ==> r[offset..offset + |bytes|] == bytes
    ensures forall i :: 0 <= i < |r| && !(offset <= i < offset + |bytes|) ==>
              r[i] == (if i < |content| then content[i] else 0)
  {
    if bytes == [] then content
    else
      var padded := if |content| < offset then content + seq(offset - |content|, _ => 0) else content;
      padded[..offset] + bytes + (if offset + |bytes| < |padded| then padded[offset + |bytes|..] else [])
  }

  function Put(t: Tab, key: int, offset: nat, bytes: seq<byte>): Tab
    requires key in t.descs
  {
    t.(files := t.files[t.descs[key].path := Splice(Content(t, key), offset, bytes)])
  }

  function PwriteKey(t: Tab, key: int, offset: int64, bytes: blob): (Tab, Sys) {
    if offset < 0 then (t, Failed(EINVAL))
    else if key !in t.descs || !t.descs[key].writable then (t, Failed(EBADF))
    else
      var n := Min(|bytes|, MAX_RW);
      (Put(t, key, offset, bytes[..n]), Ok(n, []))
  }

  function Advance(t: Tab, key: int, n: nat): Tab
    requires key in t.descs
  {
    t.(descs := t.descs[key := t.descs[key].(pos := t.descs[key].pos + n)])
  }

  function ReadKey(t: Tab, key: int, size: uint32): (r: (Tab, Sys))
    ensures r.1.Ok? ==> r.1.value == |r.1.bytes| && |r.1.bytes| <= size
  {
    if key !in t.descs || !t.descs[key].readable then (t, Failed(EBADF))
    else
      var s := Slice(Content(t, key), size, t.descs[key].pos);
      (Advance(t, key, |s|), Ok(|s|, s))
  }

  function WriteKey(t: Tab, key: int, bytes: blob): (Tab, Sys) {
    if key !in t.descs || !t.descs[key].writable then (t, Failed(EBADF))
    else
      var n := Min(|bytes|, MAX_RW);
      (Advance(Put(t, key, t.descs[key].pos, bytes[..n]), key, n), Ok(n, []))
  }

  // ---------- Renumbering ----------

  /** `a` shows the same files as `b`, with `b`'s descriptions renamed by an injective table that
      names them all. */
  ghost predicate Renames(a: Tab, b: Tab, table: map<int, int>) {
    && a.files == b.files
    && a.descs.Keys == table.Keys
    && (forall i :: i in table ==> table[i] in b.descs && a.descs[i] == b.descs[table[i]])
    && (forall i, j :: i in table && j in table && i != j ==> table[i] != table[j])
    && (forall k :: k in b.descs ==> exists i :: i in table && table[i] == k)
  }

  lemma OpenRenames(a: Tab, b: Tab, table: map<int, int>, path: blob, flags: int32, i: int, k: int)
    requires Renames(a, b, table) && CanOpen(b, path, flags) && i !in table && k !in b.descs
    ensures Renames(OpenAs(a, path, flags, i), OpenAs(b, path, flags, k), table[i := k])
  {
    var b', table' := OpenAs(b, path, flags, k), table[i := k];
    forall x | x in b'.descs ensures exists j :: j in table' && table'[j] == x {
      if x == k {
        assert table'[i] == k;
      } else {
        var j :| j in table && table[j] == x;
        assert table'[j] == x;
      }
    }
  }

  lemma CloseRenames(a: Tab, b: Tab, table: map<int, int>, i: int)
    requires Renames(a, b, table) && i in table
    ensures Renames(CloseKey(a, i).0, CloseKey(b, table[i]).0, table - {i})
    ensures CloseKey(a, i).1 == CloseKey(b, table[i]).1
  {
    var b' := CloseKey(b, table[i]).0;
    forall x | x in b'.descs ensures exists j :: j in table - {i} && (table - {i})[j] == x {
      var j :| j in table && table[j] == x;
      assert j in table - {i};
    }
  }

  /** Replacing one description and one file on both sides keeps the renaming. */
  lemma UpdateRenames(a: Tab, b: Tab, table: map<int, int>, i: int, d: Desc, files: map<blob, seq<byte>>)
    requires Renames(a, b, table) && i in table
    ensures Renames(Tab(files, a.descs[i := d]), Tab(files, b.descs[table[i] := d]), table)
  {
  }

  lemma SameDesc(t: Tab, key: int)
    requires key in t.descs
    ensures t.descs[key := t.descs[key]] == t.descs
  {
  }

  lemma PwriteRenames(a: Tab, b: Tab, table: map<int, int>, i: int, offset: int64, bytes: blob)
    requires Renames(a, b, table) && i in table
    ensures Renames(PwriteKey(a, i, offset, bytes).0, PwriteKey(b, table[i], offset, bytes).0, table)
    ensures PwriteKey(a, i, offset, bytes).1 == PwriteKey(b, table[i], offset, bytes).1
  {
    SameDesc(a, i);
    SameDesc(b, table[i]);
    UpdateRenames(a, b, table, i, a.descs[i], PwriteKey(b, table[i], offset, bytes).0.files);
  }

  lemma ReadRenames(a: Tab, b: Tab, table: map<int, int>, i: int, size: uint32)
    requires Renames(a, b, table) && i in table
    ensures Renames(ReadKey(a, i, size).0, ReadKey(b, table[i], size).0, table)
    ensures ReadKey(a, i, size).1 == ReadKey(b, table[i], size).1
  {
    UpdateRenames(a, b, table, i, ReadKey(a, i, size).0.descs[i], b.files);
  }

  lemma WriteRenames(a: Tab, b: Tab, table: map<int, int>, i: int, bytes: blob)
    requires Renames(a, b, table) && i in table
    ensures Renames(WriteKey(a, i, bytes).0, WriteKey(b, table[i], bytes).0, table)
    ensures WriteKey(a, i, bytes).1 == WriteKey(b, table[i], bytes).1
  {
    UpdateRenames(a, b, table, i, WriteKey(a, i, bytes).0.descs[i], WriteKey(b, table[i], bytes).0.files);
  }
}
