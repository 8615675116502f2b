/**
 worker/DirCommandsHandler: two tables under one id counter, and the batching loop of readdir.
 Handlers run one at a time here.
 */
module DirCommandsHandlerModel {
  import opened Codec
  import opened Listing
  import opened BinarySerializerModel
  import opened BinaryDeserializerModel
  import opened FileCommandsHandlerModel
  import opened Commands


  // What ::opendir answers for a path: a stream, or an errno.
  datatype Source = Directory(stream: Stream) | Refused(errno: int32)

  class DirCommandsHandler {
    const overrides: map<blob, seq<Dirent>>      // DirsToOverride
    var streams: map<nat, Stream>                // the system's open directory streams, by DIR*
    var fds: map<int, nat>
    var overridden: map<int, blob>               // to the overridden path
    var nextFdId: nat
    // history
    var owner: map<nat, int>                     // the id last given to a DIR*
    var opens: nat
    var closes: nat

    /** Ids of the two tables are disjoint and below the shared counter; each real id has its own
        open stream, and every open stream has an id. */
    ghost predicate Valid()
      reads this
    {
      && fds.Keys !! overridden.Keys
      && (forall id :: id in fds || id in overridden ==> 0 <= id < nextFdId)
      && (forall id :: id in fds ==> fds[id] in streams)
      && (forall i, j :: i in fds && j in fds && i != j ==> fds[i] != fds[j])
      && (forall d :: d in streams ==> d in owner && owner[d] in fds && fds[owner[d]] == d)
      && (forall id :: id in overridden ==> overridden[id] in overrides)
      && opens == closes + |streams|
    }

    constructor (overrides: map<blob, seq<Dirent>>)
      ensures Valid() && this.overrides == overrides && fds == map[] && overridden == map[] && streams == map[]
    {
      this.overrides := overrides;
      streams, fds, overridden, owner := map[], map[], map[], map[];
      nextFdId, opens, closes := 0, 0, 0;
    }

    /** opendir: the reply holds the id and the errno of `OpenPath`; a payload that does not decode
        throws before anything has happened. Ids are below 2^31. */
    method Opendir(data: blob, source: Source, dir: nat, stale: int32) returns (r: Option<seq<byte>>)
      requires Valid() && dir !in streams && nextFdId < 0x8000_0000
      modifies this
      ensures Valid()
      ensures var path := ReadField(KBlob, data, 0).field;
              if path.None? then
                r.None? && fds == old(fds) && overridden == old(overridden) && streams == old(streams)
              else if path.value.bytes in overrides then
                && r == Some(Encode([I32(old(nextFdId)), I32(0)]))
                && overridden == old(overridden)[old(nextFdId) := path.value.bytes]
                && fds == old(fds) && streams == old(streams)
              else if source.Directory? then
                && r == Some(Encode([I32(old(nextFdId)), I32(stale)])) && old(nextFdId) !in old(fds)
                && fds == old(fds)[old(nextFdId) := dir] && streams == old(streams)[dir := source.stream]
                && overridden == old(overridden)
              else
                && r == Some(Encode([I32(-1), I32(source.errno)]))
                && fds == old(fds) && overridden == old(overridden) && streams == old(streams)
    {
      var d := new BinaryDeserializer(data);
      var path := d.DeserializeBytes();
      if path.None? { return None; }
      var fdId, errno := OpenPath(path.value, source, dir, stale);
      var bytes := ReplyOfTwo(fdId, errno);
      r := Some(bytes);
    }

    /** closedir: the reply holds the outcome of `CloseId`. */
    method Closedir(data: blob, stale: int32) returns (r: Option<seq<byte>>)
      requires Valid()
      modifies this
      ensures Valid()
      ensures var id := ReadField(KI32, data, 0).field;
              if id.None? then
                r.None? && fds == old(fds) && overridden == old(overridden) && streams == old(streams)
              else if id.value.i32 in old(overridden) then
                && r == Some(Encode([U8(1), I32(0)]))
                && overridden == old(overridden) - {id.value.i32} && fds == old(fds) && streams == old(streams)
              else if id.value.i32 in old(fds) then
                && r == Some(Encode([U8(1), I32(stale)]))
                && fds == old(fds) - {id.value.i32} && streams == old(streams) - {old(fds)[id.value.i32]}
                && overridden == old(overridden)
              else
                && r == Some(Encode([U8(0), I32(EINVAL)]))
                && fds == old(fds) && overridden == old(overridden) && streams == old(streams)
    {
      var d := new BinaryDeserializer(data);
      var id := d.DeserializeInt32();
      if id.None? { return None; }
      var ok, errno := CloseId(id.value, stale);
      var bytes := ReplyOfFlag(ok, errno);
      r := Some(bytes);
    }

    /** readdir: the reply is that of `ReadBatch`. */
    method Readdir(data: blob, stale: Errno) returns (r: Option<seq<byte>>)
      requires Valid()
      requires ReaddirArgs(data).Some? ==> Fits(ReaddirArgs(data).value.0, ReaddirArgs(data).value.1)
      modifies this
      ensures Valid() && fds == old(fds) && overridden == old(overridden)
      ensures var args := ReaddirArgs(data);
              if args.None? then r.None? && streams == old(streams)
              else
                var (id, entries) := args.value;
                && r == Some(ReplyBytes(ListingFor(old(StreamOf(id)), entries, StaleFor(id, stale))))
                && streams == if id !in fds then old(streams)
                              else old(streams)[fds[id] := AfterBatch(old(streams)[fds[id]], entries)]
    {
      var d := new BinaryDeserializer(data);
      var id := d.DeserializeInt32();
      if id.None? { return None; }
      var entries := d.DeserializeUint32();
      if entries.None? { return None; }
      var bytes := ReadBatch(id.value, entries.value, stale);
      r := Some(bytes);
    }

    /** opendir after decoding. `dir` is any DIR* the system is not using. */
    method OpenPath(path: blob, source: Source, dir: nat, stale: int32) returns (fdId: int32, errno: int32)
      requires Valid() && dir !in streams && nextFdId < 0x8000_0000
      modifies this
      ensures Valid()
      ensures path in overrides ==>
                fdId == old(nextFdId) && errno == 0 && overridden == old(overridden)[fdId := path]
                && fds == old(fds) && streams == old(streams)
      ensures path !in overrides && source.Directory? ==>
                fdId == old(nextFdId) && errno == stale && fdId !in old(fds) && fds == old(fds)[fdId := dir]
                && streams == old(streams)[dir := source.stream] && overridden == old(overridden)
      ensures path !in overrides && source.Refused? ==>
                fdId == -1 && errno == source.errno
                && fds == old(fds) && streams == old(streams) && overridden == old(overridden)
    {
      fdId, errno := -1, 0;
      if path in overrides {
        fdId := nextFdId;
        nextFdId := nextFdId + 1;
        overridden := overridden[fdId := path];
      } else {
        match source {
          case Refused(e) => errno := e;
          case Directory(stream) =>
            errno := stale;
            fdId := EmplaceStream(dir, stream);
        }
      }
    }

    /** ::opendir has succeeded: the next id, and the emplace. */
    method EmplaceStream(dir: nat, stream: Stream) returns (fdId: int32)
      requires Valid() && dir !in streams && nextFdId < 0x8000_0000
      modifies this
      ensures Valid() && overridden == old(overridden)
      ensures fdId == old(nextFdId) && fdId !in old(fds)
      ensures fds == old(fds)[fdId := dir] && streams == old(streams)[dir := stream]
    {
      streams := streams[dir := stream];
      opens := opens + 1;
      fdId := nextFdId;
      nextFdId := nextFdId + 1;
      fds := fds[fdId := dir];
      owner := owner[dir := fdId];
    }

    /** closedir after decoding; an unknown id reaches ::closedir as a null pointer. */
    method CloseId(fdId: int32, stale: int32) returns (ok: bool, errno: int32)
      requires Valid()
      modifies this
      ensures Valid()
      ensures ok <==> fdId in old(overridden) || fdId in old(fds)
      ensures ok ==> errno == if fdId in old(overridden) then 0 else stale
      ensures !ok ==> errno == EINVAL && fds == old(fds) && overridden == old(overridden) && streams == old(streams)
      ensures fdId in old(overridden) ==>
                overridden == old(overridden) - {fdId} && fds == old(fds) && streams == old(streams)
      ensures fdId in old(fds) ==>
                fds == old(fds) - {fdId} && streams == old(streams) - {old(fds)[fdId]} && overridden == old(overridden)
    {
      if fdId in overridden {
        overridden := overridden - {fdId};
        ok, errno := true, 0;
      } else if fdId in fds {
        CloseStream(fdId);
        ok, errno := true, stale;
      } else {
        MinusAbsent(fds, fdId);
        fds := fds - {fdId};
        ok, errno := false, EINVAL;
      }
    }

    /** ::closedir on the stream of a known id, and the erase. */
    method CloseStream(fdId: int32)
      requires Valid() && fdId in fds
      modifies this
      ensures Valid() && overridden == old(overridden)
      ensures fds == old(fds) - {fdId} && streams == old(streams) - {old(fds)[fdId]}
    {
      MinusPresent(streams, fds[fdId]);
      streams := streams - {fds[fdId]};
      closes := closes + 1;
      fds := fds - {fdId};
    }

    /** The stream a readdir on `fdId` runs on; an overridden listing starts over on every call. */
    function StreamOf(fdId: int): Option<Stream>
      requires Valid()
      reads this
    {
      if fdId in overridden then Some(Stream(overrides[overridden[fdId]], 0))
      else if fdId in fds then Some(streams[fds[fdId]])
      else None
    }

    /** An overridden listing reports no errno. */
    function StaleFor(fdId: int, stale: Errno): Errno
      reads this
    {
      if fdId in overridden then 0 else stale
    }

    /** The reply to a readdir of `entries` on `fdId` stays below 2^32 bytes. */
    ghost predicate Fits(fdId: int, entries: nat)
      requires Valid()
      reads this
    {
      StreamOf(fdId).Some? ==> |EntriesBytes(Batch(StreamOf(fdId).value, entries))| + 4 < LIMIT
    }

    /** readdir after decoding. */
    method ReadBatch(fdId: int32, entries: uint32, stale: Errno) returns (data: seq<byte>)
      requires Valid() && Fits(fdId, entries)
      modifies this
      ensures Valid() && fds == old(fds) && overridden == old(overridden)
      ensures data == ReplyBytes(ListingFor(old(StreamOf(fdId)), entries, StaleFor(fdId, stale)))
      ensures streams == if fdId !in fds then old(streams)
                         else old(streams)[fds[fdId] := AfterBatch(old(streams)[fds[fdId]], entries)]
    {
      var serializer := new BinarySerializer();
      var shouldOverride := fdId in overridden;
      if !shouldOverride && fdId !in fds {
        SerializeReply(serializer, EBADF, ListingFor(None, entries, stale));
        data := serializer.Data();
        return;
      }
      ghost var reply := ListingFor(StreamOf(fdId), entries, StaleFor(fdId, stale));
      var errno := AppendBatch(serializer, fdId, entries, stale);
      assert (if shouldOverride then 0 else errno) == reply.errno;
      SerializeReply(serializer, if shouldOverride then 0 else errno, reply);
      data := serializer.Data();
    }

    /** The loop: entries until there are `entries` of them or the listing ends. */
    method AppendBatch(serializer: BinarySerializer, fdId: int32, entries: uint32, stale: Errno) returns (errno: Errno)
      requires Valid() && Known(fdId) && Fits(fdId, entries)
      requires serializer.Valid() && serializer.serialized == []
      modifies this`streams, serializer
      ensures Valid() && serializer.Valid()
      ensures var st := old(StreamOf(fdId)).value;
              && serializer.serialized == EntriesBytes(Batch(st, entries))
              && errno == BatchErrno(st, entries, stale)
              && streams == Advanced(old(streams), fdId, |Batch(st, entries)|)
    {
      ghost var streams0, st := streams, StreamOf(fdId).value;
      var i, more: bool := 0, true;
      errno := stale;
      AdvancedByNone(streams0, fdId);
      while i < entries && more
        invariant Valid() && 0 <= i <= entries && i <= |st.left| && streams == Advanced(streams0, fdId, i)
        invariant serializer.Valid() && serializer.serialized == EntriesBytes(st.left[..i])
        invariant !more ==> i == |st.left| && i < entries
        invariant errno == if !more then st.fault else if i == 0 then stale else 0
        decreases entries - i, more
      {
        more, errno := AppendNext(serializer, fdId, i, entries, streams0);
        i := if more then i + 1 else i;
      }
      assert st.left[..i] == Batch(st, entries);
    }

    /** One round of the loop: the next entry, or the end. */
    method AppendNext(serializer: BinarySerializer, fdId: int32, i: nat, ghost entries: nat, ghost streams0: map<nat, Stream>)
      returns (more: bool, errno: Errno)
      requires Valid() && Known(fdId) && (fdId !in overridden ==> fds[fdId] in streams0)
      requires i <= |StreamIn(streams0, fdId).left| && i < entries && streams == Advanced(streams0, fdId, i)
      requires |EntriesBytes(Batch(StreamIn(streams0, fdId), entries))| + 4 < LIMIT
      requires serializer.Valid() && serializer.serialized == EntriesBytes(StreamIn(streams0, fdId).left[..i])
      modifies this`streams, serializer
      ensures Valid() && serializer.Valid()
      ensures var left, fault := StreamIn(streams0, fdId).left, StreamIn(streams0, fdId).fault;
              if i == |left| then
                !more && errno == fault && streams == old(streams) && serializer.serialized == old(serializer.serialized)
              else
                && more && errno == 0 && streams == Advanced(streams0, fdId, i + 1)
                && serializer.serialized == EntriesBytes(left[..i + 1])
    {
      ghost var left := StreamIn(streams0, fdId).left;
      var dir;
      dir, errno := NextEntry(fdId, i, streams0);
      more := dir.Some?;
      if more {
        Room(left, i, entries);
        NextPrefix(left, i);
        AppendEntry(serializer, dir.value, left[..i]);
      }
    }

    ghost predicate Known(fdId: int)
      reads this
    {
      fdId in overridden || fdId in fds
    }

    /** The open streams when a readdir on `fdId` that found `ss` has taken `n` entries. */
    ghost function Advanced(ss: map<nat, Stream>, fdId: int, n: nat): map<nat, Stream>
      requires Known(fdId) && (fdId !in overridden ==> fds[fdId] in ss && n <= |ss[fds[fdId]].left|)
      reads this
    {
      if fdId in overridden then ss
      else ss[fds[fdId] := Stream(ss[fds[fdId]].left[n..], ss[fds[fdId]].fault)]
    }

    lemma AdvancedByNone(ss: map<nat, Stream>, fdId: int)
      requires Known(fdId) && (fdId !in overridden ==> fds[fdId] in ss)
      ensures Advanced(ss, fdId, 0) == ss
    {
      if fdId !in overridden {
        var st := ss[fds[fdId]];
        assert st.left[0..] == st.left;
      }
    }

    ghost function StreamIn(ss: map<nat, Stream>, fdId: int): Stream
      requires Valid() && Known(fdId) && (fdId !in overridden ==> fds[fdId] in ss)
      reads this
    {
      if fdId in overridden then Stream(overrides[overridden[fdId]], 0) else ss[fds[fdId]]
    }

    /** The top of the loop: the next entry of either kind of listing, if there is one. */
    method NextEntry(fdId: int32, i: nat, ghost streams0: map<nat, Stream>) returns (dir: Option<Dirent>, errno: Errno)
      requires Valid() && Known(fdId) && (fdId !in overridden ==> fds[fdId] in streams0)
      requires i <= |StreamIn(streams0, fdId).left| && streams == Advanced(streams0, fdId, i)
      modifies this`streams
      ensures Valid()
      ensures var st := StreamIn(streams0, fdId);
              if i == |st.left| then dir == None && errno == st.fault && streams == old(streams)
              else dir == Some(st.left[i]) && errno == 0 && streams == Advanced(streams0, fdId, i + 1)
    {
      dir, errno := None, 0;
      if fdId !in overridden {
        dir, errno := SystemReaddir(fds[fdId]);
      } else if i < |overrides[overridden[fdId]]| {
        dir := Some(overrides[overridden[fdId]][i]);
      }
    }

    /** ::readdir with errno cleared before. */
    method SystemReaddir(d: nat) returns (dir: Option<Dirent>, errno: Errno)
      requires Valid() && d in streams
      modifies this`streams
      ensures Valid()
      ensures var st := old(streams[d]);
              && errno == BatchErrno(st, 1, 0)
              && dir == (if st.left == [] then None else Some(st.left[0]))
              && streams == old(streams)[d := AfterBatch(st, 1)]
    {
      var st := streams[d];
      if st.left == [] {
        assert st.left[0..] == st.left;
        return None, st.fault;
      }
      streams := streams[d := Stream(st.left[1..], st.fault)];
      assert streams.Keys == old(streams).Keys;
      return Some(st.left[0]), 0;
    }

    /** The destructor closes every real stream; overridden listings hold nothing. */
    method Destroy()
      requires Valid()
      modifies this`streams, this`closes
      ensures streams.Keys == {} && closes == opens
    {
      ghost var all := streams;
      for id := 0 to nextFdId
        invariant fds == old(fds) && opens == closes + |streams|
        invariant forall d :: d in streams ==> d in all
        invariant forall j :: j in fds ==> (fds[j] in streams <==> j >= id)
      {
        if id in fds {
          MinusPresent(streams, fds[id]);
          streams := streams - {fds[id]};
          closes := closes + 1;
        }
      }
    }
  }

  lemma MinusPresent<K, V>(m: map<K, V>, k: K)
    requires k in m
    ensures |m - {k}| == |m| - 1
  {
    assert (m - {k}).Keys == m.Keys - {k};
  }

  lemma MinusAbsent<K, V>(m: map<K, V>, k: K)
    requires k !in m
    ensures m - {k} == m
  {
  }

  lemma NextPrefix<T>(s: seq<T>, i: nat)
    requires i < |s|
    ensures s[..i] + [s[i]] == s[..i + 1]
  {
  }

  /** One more entry of a batch that fits still fits. */
  lemma Room(left: seq<Dirent>, i: nat, entries: nat)
    requires i < |left| && i < entries
    requires |EntriesBytes(if entries <= |left| then left[..entries] else left)| + 4 < LIMIT
    ensures |EntriesBytes(left[..i])| + |EntryBytes(left[i])| < LIMIT
  {
    var batch := if entries <= |left| then left[..entries] else left;
    EntriesPrefix(batch, i + 1);
    assert batch[..i + 1] == left[..i] + [left[i]];
    EntriesSnoc(left[..i], left[i]);
  }

  lemma RoomForErrno(es: seq<Dirent>, entries: nat)
    requires |es| <= entries && ENTRY_MAX * entries + 4 < LIMIT
    ensures |EntriesBytes(es)| + 4 < LIMIT
  {
    EntriesSize(es);
    ScaleMono(ENTRY_MAX, |es|, entries);
  }

  /** The three serializer calls of one entry. */
  method AppendEntry(serializer: BinarySerializer, e: Dirent, ghost es: seq<Dirent>)
    requires serializer.Valid() && serializer.serialized == EntriesBytes(es)
    requires |EntriesBytes(es)| + |EntryBytes(e)| < LIMIT
    modifies serializer
    ensures serializer.Valid() && serializer.serialized == EntriesBytes(es + [e])
  {
    ghost var a, b, c := EncodeField(U32(e.ino % LIMIT)), EncodeField(U8(e.typ)), EncodeField(Blob(e.name));
    EntrySize(e);
    serializer.SerializeUint32(e.ino % LIMIT);
    serializer.SerializeUint8(e.typ);
    serializer.SerializeBytes(e.name);
    EntriesSnoc(es, e);
    EncodeThree(U32(e.ino % LIMIT), U8(e.typ), Blob(e.name));
    Assoc(EntriesBytes(es), a, b);
    Assoc(EntriesBytes(es), a + b, c);
  }

  method SerializeReply(serializer: BinarySerializer, errno: int32, ghost r: ListingReply)
    requires serializer.Valid() && serializer.serialized == EntriesBytes(r.entries) && errno == r.errno
    requires |EntriesBytes(r.entries)| + 4 < LIMIT
    modifies serializer
    ensures serializer.Valid() && serializer.serialized == ReplyBytes(r)
  {
    serializer.SerializeInt32(errno);
  }
}
