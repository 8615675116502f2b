/**
 The client's side of a listing: Commander::readdir, and the loop of zcfs_readdir that asks for
 batches until one comes back short.
 */
module ReaddirLoop {
  import opened Codec
  import opened Listing
  import opened BinarySerializerModel
  import opened BinaryDeserializerModel
  import opened DirCommandsHandlerModel

  const MAX_DIRS_READ_PER_CALL: uint32 := 2048

  /** The parsing loop of Commander::readdir on any payload. */
  method ParseListing(data: seq<byte>) returns (r: Option<(seq<DirEntry>, int32)>)
    requires |data| < LIMIT
    ensures r == ParseFrom(data, 0)
  {
    var d := new BinaryDeserializer(data);
    var entries: seq<DirEntry> := [];
    ghost var whole := ParseFrom(data, 0);
    if whole.Some? {
      assert [] + whole.value.0 == whole.value.0;
    }
    while d.BytesAvailable() > 4
      invariant d.Valid() && d.serialized == data
      invariant var rest := ParseFrom(data, d.index);
                whole == if rest.None? then None else Some((entries + rest.value.0, rest.value.1))
      decreases d.BytesAvailable()
    {
      ghost var at := d.index;
      var inode := d.DeserializeUint32();
      if inode.None? { return None; }
      var typ := d.DeserializeUint8();
      if typ.None? { return None; }
      var name := d.DeserializeBytes();
      if name.None? { return None; }
      ghost var e := DirEntry(inode.value, typ.value, name.value);
      assert ReadEntry(data, at) == Some(Entry(e, d.index));
      ParseStep(data, at, Entry(e, d.index));
      ghost var rest := ParseFrom(data, d.index);
      if rest.Some? {
        Assoc(entries, [e], rest.value.0);
      }
      entries := entries + [DirEntry(inode.value, typ.value, name.value)];
    }
    var errno := d.DeserializeInt32();
    if errno.None? { return None; }
    assert entries + [] == entries;
    return Some((entries, errno.value));
  }

  /** One Commander::readdir call against the Worker's handler. */
  method Readdir(worker: DirCommandsHandler, fd: int32, entries: uint32, stale: Errno)
    returns (dirs: seq<DirEntry>, errno: int32)
    requires worker.Valid() && worker.Fits(fd, entries)
    modifies worker
    ensures worker.Valid() && worker.fds == old(worker.fds) && worker.overridden == old(worker.overridden)
    ensures var r := ListingFor(old(worker.StreamOf(fd)), entries, worker.StaleFor(fd, stale));
            dirs == ReceivedAll(r.entries) && errno == r.errno
    ensures worker.streams == if fd !in worker.fds then old(worker.streams)
              else old(worker.streams)[worker.fds[fd] := AfterBatch(old(worker.streams)[worker.fds[fd]], entries)]
  {
    ghost var r := ListingFor(worker.StreamOf(fd), entries, worker.StaleFor(fd, stale));
    var s := new BinarySerializer();
    s.SerializeInt32(fd);
    s.SerializeUint32(entries);
    var request := s.Data();
    ReaddirRequest(fd, entries, request);
    var data := worker.Readdir(request, stale);
    ReplyBack(r, data.value);
    var parsed := ParseListing(data.value);
    dirs, errno := parsed.value.0, parsed.value.1;
  }

  /** A readdir of at least one entry, an unknown id read as a stream that fails at once. */
  method NextBatch(worker: DirCommandsHandler, fd: int32, entries: uint32, stale: Errno)
    returns (dirs: seq<DirEntry>, errno: int32)
    requires worker.Valid() && worker.Fits(fd, entries) && 0 < entries
    modifies worker
    ensures worker.Valid() && worker.fds == old(worker.fds) && worker.overridden == old(worker.overridden)
    ensures var st := ListingOf(old(worker.StreamOf(fd)));
            && dirs == ReceivedAll(Batch(st, entries)) && errno == BatchErrno(st, entries, 0)
            && (fd !in worker.overridden ==> ListingOf(worker.StreamOf(fd)) == AfterBatch(st, entries))
  {
    ListingForOf(worker.StreamOf(fd), entries, worker.StaleFor(fd, stale));
    dirs, errno := Readdir(worker, fd, entries, stale);
  }

  lemma ReaddirRequest(fd: int32, entries: uint32, data: seq<byte>)
    requires data == ([] + EncodeField(I32(fd))) + EncodeField(U32(entries))
    ensures |data| < LIMIT && ReaddirArgs(data) == Some((fd, entries))
  {
    var fs := [I32(fd), U32(entries)];
    EncodeTwo(fs[0], fs[1]);
    KindsOfTwo(fs[0], fs[1]);
    assert [] + EncodeField(I32(fd)) == EncodeField(I32(fd));
    assert data[0..0 + |data|] == data;
    RoundTrip(fs, data, 0);
    DecodeTwo(KI32, KU32, data, 0);
    assert Decode([KI32, KU32], data, 0).fields.value[0] == fs[0];
    assert Decode([KI32, KU32], data, 0).fields.value[1] == fs[1];
  }

  lemma ListingForOf(o: Option<Stream>, entries: nat, stale: Errno)
    requires 0 < entries
    ensures var st := ListingOf(o);
            && ListingFor(o, entries, stale) == ListingReply(Batch(st, entries), BatchErrno(st, entries, 0))
            && (o.None? ==> AfterBatch(st, entries) == st)
  {
  }

  lemma ReplyBack(r: ListingReply, data: seq<byte>)
    requires |EntriesBytes(r.entries)| + 4 < LIMIT && data == ReplyBytes(r)
    ensures |data| < LIMIT && ParseFrom(data, 0) == Some((ReceivedAll(r.entries), r.errno))
  {
    PayloadLong(r.entries, r.errno);
    assert data[0..] == data;
    ListingRoundTrip(r.entries, r.errno, data, 0);
  }

  /** FUSE's filler: `refuses` says at which places of the listing it reports a full buffer. */
  class Filler {
    const refuses: nat -> bool
    var accepted: seq<DirEntry>

    constructor (refuses: nat -> bool)
      ensures this.refuses == refuses && accepted == []
    {
      this.refuses := refuses;
      accepted := [];
    }

    method Fill(place: nat, e: DirEntry) returns (full: bool)
      modifies this`accepted
      ensures full == refuses(place)
      ensures accepted == if full then old(accepted) else old(accepted) + [e]
    {
      full := refuses(place);
      if !full {
        accepted := accepted + [e];
      }
    }
  }

  predicate NoneRefused(refuses: nat -> bool, from: nat, to: nat) {
    forall place: nat :: from <= place < to ==> !refuses(place)
  }

  /** How many of `n` entries from place `from` on are accepted before the first refusal. */
  function UntilRefusal(refuses: nat -> bool, from: nat, n: nat): (k: nat)
    ensures k <= n && NoneRefused(refuses, from, from + k)
    ensures k < n ==> refuses(from + k)
    decreases n
  {
    if n == 0 || refuses(from) then 0 else 1 + UntilRefusal(refuses, from + 1, n - 1)
  }

  lemma UntilRefusalIs(refuses: nat -> bool, from: nat, n: nat, k: nat)
    requires k <= n && NoneRefused(refuses, from, from + k) && (k < n ==> refuses(from + k))
    ensures UntilRefusal(refuses, from, n) == k
  {
    var u := UntilRefusal(refuses, from, n);
  }

  /** The inner loop: offer a batch whose first entry has place `from`, until the filler is full. */
  method FillBatch(filler: Filler, dirs: seq<DirEntry>, from: nat)
    modifies filler`accepted
    ensures filler.accepted == old(filler.accepted) + dirs[..UntilRefusal(filler.refuses, from, |dirs|)]
  {
    var k := 0;
    while k < |dirs|
      invariant 0 <= k <= |dirs|
      invariant filler.accepted == old(filler.accepted) + dirs[..k]
      invariant NoneRefused(filler.refuses, from, from + k)
    {
      var full := filler.Fill(from + k, dirs[k]);
      if full {
        UntilRefusalIs(filler.refuses, from, |dirs|, k);
        return;
      }
      assert dirs[..k] + [dirs[k]] == dirs[..k + 1];
      k := k + 1;
    }
    UntilRefusalIs(filler.refuses, from, |dirs|, k);
  }

  /** What is left of a stream after its first `done` entries. */
  function Remaining(st: Stream, done: nat): Stream
    requires done <= |st.left|
  {
    Stream(st.left[done..], st.fault)
  }

  lemma OneBatch(st: Stream, done: nat, size: nat)
    requires done <= |st.left| && 0 < size
    ensures var b := Batch(Remaining(st, done), size);
            && done + |b| <= |st.left|
            && ReceivedAll(st.left[..done + |b|]) == ReceivedAll(st.left[..done]) + ReceivedAll(b)
            && (|b| == size ==> AfterBatch(Remaining(st, done), size) == Remaining(st, done + size))
            && (|b| < size ==> done + |b| == |st.left| && st.left[..done + |b|] == st.left)
            && BatchErrno(Remaining(st, done), size, 0) == if |b| == size then 0 else st.fault
  {
    var b := Batch(Remaining(st, done), size);
    assert st.left[..done + |b|] == st.left[..done] + b;
    if |b| == size {
      assert st.left[done..][size..] == st.left[done + size..];
    }
  }

  /** The whole blocks of `size` in `total`. */
  function WholeBlocks(total: nat, size: nat): (r: nat)
    requires 0 < size
    ensures r <= total < r + size
  {
    if total < size then 0 else size + WholeBlocks(total - size, size)
  }

  lemma {:induction false} BlocksBelow(total: nat, done: nat, size: nat)
    requires 0 < size && WholeBlocks(done, size) == done <= total < done + size
    ensures WholeBlocks(total, size) == done
  {
    if done >= size {
      BlocksBelow(total - size, done - size, size);
    }
  }

  /** The entry at `place` is taken when nothing in its batch up to it is refused. */
  predicate Takes(refuses: nat -> bool, place: nat, size: nat)
    requires 0 < size
  {
    NoneRefused(refuses, WholeBlocks(place, size), place + 1)
  }

  /** What the filler holds of the first `done` entries of a listing. */
  function Taken(es: seq<DirEntry>, refuses: nat -> bool, done: nat, size: nat): seq<DirEntry>
    requires done <= |es| && 0 < size
  {
    if done == 0 then []
    else if Takes(refuses, done - 1, size) then Taken(es, refuses, done - 1, size) + [es[done - 1]]
    else Taken(es, refuses, done - 1, size)
  }

  /** The whole listing is taken exactly when no place in it is refused, and never more than that. */
  lemma {:induction false} TakenAll(es: seq<DirEntry>, refuses: nat -> bool, done: nat, size: nat)
    requires done <= |es| && 0 < size
    ensures |Taken(es, refuses, done, size)| <= done
    ensures |Taken(es, refuses, done, size)| == done <==> NoneRefused(refuses, 0, done)
    ensures Taken(es, refuses, done, size) == es[..done] <==> NoneRefused(refuses, 0, done)
  {
    if done > 0 {
      TakenAll(es, refuses, done - 1, size);
      assert es[..done - 1] + [es[done - 1]] == es[..done];
    }
  }

  /** Nothing is delivered twice or out of order: what was taken stands at increasing places. */
  ghost predicate InOrder(part: seq<DirEntry>, es: seq<DirEntry>, places: seq<nat>) {
    && |places| == |part|
    && (forall i :: 0 <= i < |part| ==> places[i] < |es| && part[i] == es[places[i]])
    && (forall i, j :: 0 <= i < j < |part| ==> places[i] < places[j])
  }

  lemma {:induction false} TakenInOrder(es: seq<DirEntry>, refuses: nat -> bool, done: nat, size: nat)
    returns (places: seq<nat>)
    requires done <= |es| && 0 < size
    ensures InOrder(Taken(es, refuses, done, size), es, places)
    ensures forall i :: 0 <= i < |places| ==> places[i] < done
    ensures forall p :: p in places <==> 0 <= p < done && Takes(refuses, p, size)
  {
    places := [];
    if done > 0 {
      places := TakenInOrder(es, refuses, done - 1, size);
      if Takes(refuses, done - 1, size) {
        InOrderSnoc(Taken(es, refuses, done - 1, size), es, places, done - 1);
        places := places + [done - 1];
      }
    }
  }

  lemma InOrderSnoc(part: seq<DirEntry>, es: seq<DirEntry>, places: seq<nat>, p: nat)
    requires InOrder(part, es, places) && p < |es| && forall i :: 0 <= i < |places| ==> places[i] < p
    ensures InOrder(part + [es[p]], es, places + [p])
  {
  }

  /** One batch, by what is held after each of its entries: an entry joins as long as nothing in the
      batch has been refused, so what has joined is what stands in front of the first refusal. */
  lemma {:induction false} BatchGrows(es: seq<DirEntry>, refuses: nat -> bool, done: nat, held: seq<seq<DirEntry>>)
    returns (k: nat)
    requires held != [] && done + |held| - 1 <= |es|
    requires forall m :: 0 <= m < |held| - 1 ==>
               held[m + 1] == if NoneRefused(refuses, done, done + m + 1) then held[m] + [es[done + m]] else held[m]
    ensures k <= |held| - 1 && NoneRefused(refuses, done, done + k) && (k < |held| - 1 ==> refuses(done + k))
    ensures held[|held| - 1] == held[0] + es[done..done + k]
    decreases |held|
  {
    var m := |held| - 2;
    if |held| == 1 {
      k := 0;
      NoMore(held[0], es, done);
    } else {
      k := BatchGrows(es, refuses, done, held[..|held| - 1]);
      if NoneRefused(refuses, done, done + m + 1) {
        OneMore(held[0], es, done, done + m);
        k := m + 1;
      }
    }
  }

  /** A batch adds exactly its entries in front of the first refusal. */
  lemma TakenBatch(es: seq<DirEntry>, refuses: nat -> bool, done: nat, n: nat, size: nat) returns (k: nat)
    requires 0 < size && WholeBlocks(done, size) == done && n <= size && done + n <= |es|
    ensures k <= n && NoneRefused(refuses, done, done + k) && (k < n ==> refuses(done + k))
    ensures Taken(es, refuses, done + n, size) == Taken(es, refuses, done, size) + es[done..done + k]
  {
    var held := Snapshots(es, refuses, done, n, size);
    k := BatchGrows(es, refuses, done, held);
  }

  /** What is held after each entry of a batch. */
  lemma Snapshots(es: seq<DirEntry>, refuses: nat -> bool, done: nat, n: nat, size: nat) returns (held: seq<seq<DirEntry>>)
    requires 0 < size && WholeBlocks(done, size) == done && n <= size && done + n <= |es|
    ensures |held| == n + 1
    ensures held[0] == Taken(es, refuses, done, size) && held[n] == Taken(es, refuses, done + n, size)
    ensures forall m :: 0 <= m < n ==>
              held[m + 1] == if NoneRefused(refuses, done, done + m + 1) then held[m] + [es[done + m]] else held[m]
  {
    held := seq(n + 1, m requires 0 <= m <= n => Taken(es, refuses, done + m, size));
    forall m | 0 <= m < n
      ensures held[m + 1] == if NoneRefused(refuses, done, done + m + 1) then held[m] + [es[done + m]] else held[m]
    {
      TakenUnfolds(es, refuses, done, m, size);
    }
  }

  lemma TakenUnfolds(es: seq<DirEntry>, refuses: nat -> bool, done: nat, m: nat, size: nat)
    requires m < size && WholeBlocks(done, size) == done && done + m < |es|
    ensures Taken(es, refuses, done + m + 1, size)
            == (if NoneRefused(refuses, done, done + m + 1) then Taken(es, refuses, done + m, size) + [es[done + m]]
                else Taken(es, refuses, done + m, size))
  {
    BlocksBelow(done + m, done, size);
  }

  lemma NoMore(before: seq<DirEntry>, es: seq<DirEntry>, i: nat)
    requires i <= |es|
    ensures before + es[i..i] == before
  {
  }

  lemma OneMore(before: seq<DirEntry>, es: seq<DirEntry>, i: nat, j: nat)
    requires i <= j < |es|
    ensures before + es[i..j] + [es[j]] == before + es[i..j + 1]
  {
    assert es[i..j] + [es[j]] == es[i..j + 1];
    Assoc(before, es[i..j], [es[j]]);
  }

  /** The filler holds what it accepted of the first `done` entries. */
  ghost predicate Holds(filler: Filler, es: seq<DirEntry>, done: nat, size: nat)
    reads filler
  {
    0 < size && done <= |es| && filler.accepted == Taken(es, filler.refuses, done, size)
  }

  /** The inner loop on the next batch of a listing. */
  method OfferBatch(filler: Filler, dirs: seq<DirEntry>, done: nat, ghost es: seq<DirEntry>, ghost size: nat)
    returns (next: nat)
    requires Holds(filler, es, done, size) && WholeBlocks(done, size) == done
    requires |dirs| <= size && done + |dirs| <= |es| && dirs == es[done..done + |dirs|]
    modifies filler`accepted
    ensures next == done + |dirs| && Holds(filler, es, next, size)
  {
    next := done + |dirs|;
    TakenDirs(es, filler.refuses, done, dirs, size);
    FillBatch(filler, dirs, done);
  }

  lemma PrefixOfBatch(es: seq<DirEntry>, dirs: seq<DirEntry>, done: nat, k: nat)
    requires k <= |dirs| && done + |dirs| <= |es| && dirs == es[done..done + |dirs|]
    ensures dirs[..k] == es[done..done + k]
  {
  }

  lemma TakenDirs(es: seq<DirEntry>, refuses: nat -> bool, done: nat, dirs: seq<DirEntry>, size: nat)
    requires 0 < size && WholeBlocks(done, size) == done
    requires |dirs| <= size && done + |dirs| <= |es| && dirs == es[done..done + |dirs|]
    ensures Taken(es, refuses, done + |dirs|, size)
            == Taken(es, refuses, done, size) + dirs[..UntilRefusal(refuses, done, |dirs|)]
  {
    var k := TakenBatch(es, refuses, done, |dirs|, size);
    UntilRefusalIs(refuses, done, |dirs|, k);
    PrefixOfBatch(es, dirs, done, k);
  }

  lemma BatchOfAll(st: Stream, done: nat, size: nat)
    requires done <= |st.left|
    ensures var b := Batch(Remaining(st, done), size);
            && done + |b| <= |st.left| && |b| <= size
            && ReceivedAll(b) == ReceivedAll(st.left)[done..done + |b|]
  {
  }

  /** The call of one round: the entries from place `done` on. */
  method ReadFrom(worker: DirCommandsHandler, fd: int32, size: uint32, stale: Errno,
                  ghost done: nat, ghost st: Stream, ghost es: seq<DirEntry>)
    returns (dirs: seq<DirEntry>, errno: int32)
    requires worker.Valid() && 0 < size && ENTRY_MAX * size + 4 < LIMIT
    requires es == ReceivedAll(st.left) && done <= |es| && ListingOf(worker.StreamOf(fd)) == Remaining(st, done)
    modifies worker
    ensures worker.Valid() && worker.fds == old(worker.fds) && worker.overridden == old(worker.overridden)
    ensures |dirs| <= size && done + |dirs| <= |es| && dirs == es[done..done + |dirs|]
    ensures |dirs| < size ==> done + |dirs| == |es| && errno == st.fault
    ensures |dirs| == size ==> errno == 0
    ensures |dirs| == size && fd !in worker.overridden ==> ListingOf(worker.StreamOf(fd)) == Remaining(st, done + |dirs|)
  {
    OneBatch(st, done, size);
    BatchOfAll(st, done, size);
    RoomForErrno(Batch(Remaining(st, done), size), size);
    dirs, errno := NextBatch(worker, fd, size, stale);
  }

  /** One round: read a batch and, without an error, offer it. */
  method ReadAndOffer(worker: DirCommandsHandler, fd: int32, filler: Filler, size: uint32, stale: Errno,
                      done: nat, ghost st: Stream, ghost es: seq<DirEntry>)
    returns (next: nat, errno: int32)
    requires worker.Valid() && ENTRY_MAX * size + 4 < LIMIT && es == ReceivedAll(st.left)
    requires Holds(filler, es, done, size) && WholeBlocks(done, size) == done
    requires ListingOf(worker.StreamOf(fd)) == Remaining(st, done)
    modifies worker, filler
    ensures worker.Valid() && worker.fds == old(worker.fds) && worker.overridden == old(worker.overridden)
    ensures done <= next <= |es| && next <= done + size && Holds(filler, es, next, size)
    ensures errno != 0 ==> next == done && errno == st.fault && |es| < done + size
    ensures errno == 0 && next < done + size ==> next == |es| && st.fault == 0
    ensures errno == 0 && next == done + size && fd !in worker.overridden ==>
              ListingOf(worker.StreamOf(fd)) == Remaining(st, next)
  {
    var dirs;
    dirs, errno := ReadFrom(worker, fd, size, stale, done, st, es);
    next := done;
    if errno == 0 {
      next := OfferBatch(filler, dirs, done, es, size);
    }
  }

  /** The do-while loop for any batch size. It terminates on a stream of any length, multiples of
      the batch size included. The filler is left with what it accepted of each batch, an error
      hiding the batch it ends; by TakenAll, without an error that is every entry, once and in
      order, exactly when the filler never reported a full buffer. */
  method ReadAllBatches(worker: DirCommandsHandler, fd: int32, filler: Filler, size: uint32, stale: Errno) returns (r: int)
    requires worker.Valid() && filler.accepted == [] && 0 < size && ENTRY_MAX * size + 4 < LIMIT
    requires fd in worker.overridden ==> |worker.overrides[worker.overridden[fd]]| < size
    modifies worker, filler
    ensures r == 0 - ListingOf(old(worker.StreamOf(fd))).fault
    ensures var st := ListingOf(old(worker.StreamOf(fd)));
            && filler.accepted == Taken(ReceivedAll(st.left), filler.refuses,
                                        if st.fault == 0 then |st.left| else WholeBlocks(|st.left|, size), size)
            && (st.fault == 0 ==>
                  (filler.accepted == ReceivedAll(st.left) <==> NoneRefused(filler.refuses, 0, |st.left|)))
  {
    ghost var st := ListingOf(worker.StreamOf(fd));
    ghost var es := ReceivedAll(st.left);
    var done: nat := 0;   // places used up so far: only the filler looks at it
    assert Remaining(st, 0) == st;
    var again := true;
    while again
      invariant worker.Valid()
      invariant worker.fds == old(worker.fds) && worker.overridden == old(worker.overridden)
      invariant done <= |st.left| && Holds(filler, es, done, size)
      invariant again ==> WholeBlocks(done, size) == done && ListingOf(worker.StreamOf(fd)) == Remaining(st, done)
      invariant fd in worker.overridden ==> |st.left| < size
      invariant !again ==> done == |st.left| && st.fault == 0
      decreases again, |st.left| - done
    {
      var next, errno := ReadAndOffer(worker, fd, filler, size, stale, done, st, es);
      if errno != 0 {
        BlocksBelow(|st.left|, done, size);
        return 0 - errno;
      }
      again := next == done + size;
      done := next;
    }
    TakenAll(es, filler.refuses, |st.left|, size);
    assert es[..|st.left|] == es;
    return 0;
  }

  /** zcfs_readdir on a remote directory. */
  method ZcfsReaddir(worker: DirCommandsHandler, fd: int32, filler: Filler, stale: Errno) returns (r: int)
    requires worker.Valid() && filler.accepted == []
    requires fd in worker.overridden ==> |worker.overrides[worker.overridden[fd]]| < MAX_DIRS_READ_PER_CALL
    modifies worker, filler
    ensures r == 0 - ListingOf(old(worker.StreamOf(fd))).fault
    ensures var st, size := ListingOf(old(worker.StreamOf(fd))), MAX_DIRS_READ_PER_CALL;
            && filler.accepted == Taken(ReceivedAll(st.left), filler.refuses,
                                        if st.fault == 0 then |st.left| else WholeBlocks(|st.left|, size), size)
            && (st.fault == 0 ==>
                  (filler.accepted == ReceivedAll(st.left) <==> NoneRefused(filler.refuses, 0, |st.left|)))
  {
    r := ReadAllBatches(worker, fd, filler, MAX_DIRS_READ_PER_CALL, stale);
  }
}
