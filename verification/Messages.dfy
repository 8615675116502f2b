/**
 Message frames: id, type and a length-prefixed payload. `Parse` is the reference meaning of a
 byte stream: the complete frames it starts with, and what is left over.
 */
module Messages {
  import opened Codec

  datatype Message = Message(id: uint32, typ: byte, data: blob)

  const HEADER: nat := 9
  const HEADER_KINDS: seq<Kind> := [KU32, KU8, KU32]
  const FRAME_KINDS: seq<Kind> := [KU32, KU8, KBlob]

  function FrameFields(m: Message): (fs: seq<Field>) {
    [U32(m.id), U8(m.typ), Blob(m.data)]
  }

  function HeaderFields(id: uint32, typ: byte, size: uint32): (fs: seq<Field>) {
    [U32(id), U8(typ), U32(size)]
  }

  function Frame(m: Message): (s: seq<byte>) {
    Encode(FrameFields(m))
  }

  function Header(id: uint32, typ: byte, size: uint32): (s: seq<byte>) {
    Encode(HeaderFields(id, typ, size))
  }

  function FrameAll(ms: seq<Message>): seq<byte> {
    if ms == [] then [] else Frame(ms[0]) + FrameAll(ms[1..])
  }

  lemma HeaderShape(id: uint32, typ: byte, size: uint32)
    ensures |Header(id, typ, size)| == HEADER
    ensures KindsOf(HeaderFields(id, typ, size)) == HEADER_KINDS
  {
    EncodeThree(U32(id), U8(typ), U32(size));
    KindsOfThree(U32(id), U8(typ), U32(size));
  }

  /** A frame is its 9-byte header followed by the payload. */
  lemma FrameIsHeaderAndBody(m: Message)
    ensures Frame(m) == Header(m.id, m.typ, |m.data|) + m.data
    ensures |Frame(m)| == HEADER + |m.data|
    ensures KindsOf(FrameFields(m)) == FRAME_KINDS
  {
    EncodeThree(U32(m.id), U8(m.typ), Blob(m.data));
    KindsOfThree(U32(m.id), U8(m.typ), Blob(m.data));
    EncodeThree(U32(m.id), U8(m.typ), U32(|m.data|));
    var a := EncodeField(U32(m.id)) + EncodeField(U8(m.typ));
    Assoc(a, EncodeField(U32(|m.data|)), m.data);
  }

  /** The complete frame at the front of `s`, if there is one. */
  function NextFrame(s: seq<byte>): (r: Option<Message>)
  {
    var d := Decode(FRAME_KINDS, s, 0);
    if d.fields.None? then None else MessageOf(d.fields.value)
  }

  function MessageOf(fs: seq<Field>): (r: Option<Message>) {
    if |fs| == 3 && fs[0].U32? && fs[1].U8? && fs[2].Blob?
    then Some(Message(fs[0].u32, fs[1].u8, fs[2].bytes)) else None
  }

  lemma ThreeKinds(fs: seq<Field>, a: Kind, b: Kind, c: Kind)
    requires KindsOf(fs) == [a, b, c]
    ensures |fs| == 3 && KindOf(fs[0]) == a && KindOf(fs[1]) == b && KindOf(fs[2]) == c
  {
    assert KindsOf(fs)[1..] == KindsOf(fs[1..]);
    assert KindsOf(fs[1..])[1..] == KindsOf(fs[1..][1..]);
    assert KindsOf(fs)[0] == KindOf(fs[0]) && KindsOf(fs[1..])[0] == KindOf(fs[1..][0]);
    assert KindsOf(fs[1..][1..])[0] == KindOf(fs[1..][1..][0]);
  }

  lemma NextFrameExact(s: seq<byte>, m: Message)
    ensures NextFrame(s) == Some(m) <==> |s| >= |Frame(m)| && s[..|Frame(m)|] == Frame(m)
  {
    FrameIsHeaderAndBody(m);
    if |s| >= |Frame(m)| && s[..|Frame(m)|] == Frame(m) {
      RoundTrip(FrameFields(m), s, 0);
    }
    if NextFrame(s) == Some(m) {
      NextFrameSound(s);
    }
  }

  lemma NextFrameSound(s: seq<byte>)
    requires NextFrame(s).Some?
    ensures var f := Frame(NextFrame(s).value); |s| >= |f| && s[..|f|] == f
  {
    Canonical(FRAME_KINDS, s, 0);
    var fs := Decode(FRAME_KINDS, s, 0).fields.value;
    ThreeKinds(fs, KU32, KU8, KBlob);
    assert fs == FrameFields(NextFrame(s).value);
  }

  /** Nine bytes always decode as a header, and are the header of what they decode to. */
  lemma HeaderDecodes(s: seq<byte>)
    requires |s| == HEADER
    ensures var d := Decode(HEADER_KINDS, s, 0);
            d.fields.Some? && |d.fields.value| == 3
            && d.fields.value[0].U32? && d.fields.value[1].U8? && d.fields.value[2].U32?
            && Header(d.fields.value[0].u32, d.fields.value[1].u8, d.fields.value[2].u32) == s
  {
    DecodeThree(KU32, KU8, KU32, s, 0);
    var fs := Decode(HEADER_KINDS, s, 0).fields.value;
    KindsOfThree(fs[0], fs[1], fs[2]);
    Canonical(HEADER_KINDS, s, 0);
    assert s[0..9] == s;
    assert fs == HeaderFields(fs[0].u32, fs[1].u8, fs[2].u32);
  }

  /** A complete frame is present exactly when the announced payload is. */
  lemma CompleteExactly(s: seq<byte>, id: uint32, typ: byte, size: uint32)
    requires |s| >= HEADER && s[..HEADER] == Header(id, typ, size)
    ensures NextFrame(s).Some? <==> |s| >= HEADER + size
    ensures |s| >= HEADER + size ==> NextFrame(s) == Some(Message(id, typ, s[HEADER..HEADER + size]))
  {
    if |s| >= HEADER + size {
      var m := Message(id, typ, s[HEADER..HEADER + size]);
      FrameIsHeaderAndBody(m);
      SplitSlice(s, 0, HEADER, HEADER + size);
      assert s[0..HEADER] == s[..HEADER] && s[0..HEADER + size] == s[..HEADER + size];
      NextFrameExact(s, m);
    } else if NextFrame(s).Some? {
      var m := NextFrame(s).value;
      NextFrameSound(s);
      FrameIsHeaderAndBody(m);
      HeaderShape(m.id, m.typ, |m.data|);
      HeaderShape(id, typ, size);
      var h := Header(m.id, m.typ, |m.data|);
      assert s[..HEADER] == s[..|Frame(m)|][..HEADER] == h;
      assert h + [] == h && Header(id, typ, size) + [] == Header(id, typ, size);
      PrefixFree(HeaderFields(m.id, m.typ, |m.data|), HeaderFields(id, typ, size), [], []);
    }
  }

  lemma ShortIsIncomplete(s: seq<byte>)
    requires |s| < HEADER
    ensures NextFrame(s).None?
  {
    if NextFrame(s).Some? {
      NextFrameSound(s);
      FrameIsHeaderAndBody(NextFrame(s).value);
    }
  }

  // ---------- Whole streams ----------

  datatype Parsed = Parsed(messages: seq<Message>, rest: seq<byte>)

  function Parse(s: seq<byte>): Parsed
    decreases |s|
  {
    var next := NextFrame(s);
    if next.None? then Parsed([], s)
    else
      NextFrameSound(s);
      FrameIsHeaderAndBody(next.value);
      var tail := Parse(s[|Frame(next.value)|..]);
      Parsed([next.value] + tail.messages, tail.rest)
  }

  /** The parse accounts for every byte and stops only where no complete frame is left. */
  lemma {:induction false} ParseSound(s: seq<byte>)
    ensures FrameAll(Parse(s).messages) + Parse(s).rest == s
    ensures NextFrame(Parse(s).rest).None?
    decreases |s|
  {
    var next := NextFrame(s);
    if next.Some? {
      NextFrameSound(s);
      FrameIsHeaderAndBody(next.value);
      var f := Frame(next.value);
      var tail := Parse(s[|f|..]);
      ParseSound(s[|f|..]);
      FrameAllCons(next.value, tail.messages);
      Assoc(f, FrameAll(tail.messages), tail.rest);
      assert s == f + s[|f|..];
    }
  }

  lemma FrameAllCons(m: Message, ms: seq<Message>)
    ensures FrameAll([m] + ms) == Frame(m) + FrameAll(ms)
  {
    assert ([m] + ms)[1..] == ms;
  }

  lemma {:induction false} FrameAllAppend(ms: seq<Message>, ns: seq<Message>)
    ensures FrameAll(ms + ns) == FrameAll(ms) + FrameAll(ns)
  {
    if ms == [] {
      assert ms + ns == ns;
    } else {
      var m, rest := ms[0], ms[1..];
      assert ms + ns == [m] + (rest + ns);
      FrameAllCons(m, rest + ns);
      FrameAllAppend(rest, ns);
      Assoc(Frame(m), FrameAll(rest), FrameAll(ns));
    }
  }

  lemma FrameAllSnoc(ms: seq<Message>, m: Message)
    ensures FrameAll(ms + [m]) == FrameAll(ms) + Frame(m)
  {
    FrameAllAppend(ms, [m]);
    assert [m] == [m] + [];
    FrameAllCons(m, []);
    assert Frame(m) + FrameAll([]) == Frame(m);
  }

  lemma ParseOne(m: Message, t: seq<byte>)
    ensures Parse(Frame(m) + t) == Parsed([m] + Parse(t).messages, Parse(t).rest)
  {
    var s := Frame(m) + t;
    assert s[..|Frame(m)|] == Frame(m) && s[|Frame(m)|..] == t;
    NextFrameExact(s, m);
  }

  /** Concatenated frames decode uniquely, whatever comes behind them. */
  lemma {:induction false} ParseFrames(ms: seq<Message>, tail: seq<byte>)
    ensures Parse(FrameAll(ms) + tail) == Parsed(ms + Parse(tail).messages, Parse(tail).rest)
  {
    if ms == [] {
      assert FrameAll(ms) + tail == tail;
      assert ms + Parse(tail).messages == Parse(tail).messages;
    } else {
      var m, rest := ms[0], ms[1..];
      Assoc(Frame(m), FrameAll(rest), tail);
      ParseOne(m, FrameAll(rest) + tail);
      ParseFrames(rest, tail);
      FirstOf(ms, Parse(tail).messages);
    }
  }

  lemma FirstOf(ms: seq<Message>, more: seq<Message>)
    requires ms != []
    ensures [ms[0]] + (ms[1..] + more) == ms + more
  {
    assert [ms[0]] + ms[1..] == ms;
    Assoc([ms[0]], ms[1..], more);
  }

  /** `got` is the longest run of whole frames of `ms` within `cut` bytes. */
  predicate MaximalWithin(got: seq<Message>, ms: seq<Message>, cut: nat) {
    && got <= ms
    && |FrameAll(got)| <= cut
    && (|got| < |ms| ==> cut < |FrameAll(ms[..|got| + 1])|)
  }

  lemma MaximalCons(m: Message, got: seq<Message>, rest: seq<Message>, cut: nat)
    requires MaximalWithin(got, rest, cut)
    ensures MaximalWithin([m] + got, [m] + rest, |Frame(m)| + cut)
  {
    FrameAllCons(m, got);
    if |got| < |rest| {
      assert ([m] + rest)[..|got| + 2] == [m] + rest[..|got| + 1];
      FrameAllCons(m, rest[..|got| + 1]);
    }
  }

  lemma MaximalEmpty(m: Message, rest: seq<Message>, cut: nat)
    requires cut < |Frame(m)|
    ensures MaximalWithin([], [m] + rest, cut)
  {
    assert ([m] + rest)[..1] == [m] + [];
    FrameAllCons(m, []);
  }

  /** A stream cut at any byte parses to exactly the frames that fit in front of the cut. */
  lemma {:induction false} ParseOfCutStream(ms: seq<Message>, cut: nat)
    requires cut <= |FrameAll(ms)|
    ensures MaximalWithin(Parse(FrameAll(ms)[..cut]).messages, ms, cut)
  {
    var s := FrameAll(ms)[..cut];
    if ms == [] {
      ShortIsIncomplete(s);
    } else {
      var m, rest := ms[0], ms[1..];
      assert ms == [m] + rest;
      if cut >= |Frame(m)| {
        ParseCutCons(m, rest, cut);
        ParseOfCutStream(rest, cut - |Frame(m)|);
        MaximalCons(m, Parse(FrameAll(rest)[..cut - |Frame(m)|]).messages, rest, cut - |Frame(m)|);
      } else {
        CutInsideFrame(m, rest, cut);
        MaximalEmpty(m, rest, cut);
      }
    }
  }

  lemma ParseCutCons(m: Message, rest: seq<Message>, cut: nat)
    requires |Frame(m)| <= cut <= |FrameAll([m] + rest)|
    ensures cut - |Frame(m)| <= |FrameAll(rest)|
    ensures Parse(FrameAll([m] + rest)[..cut]).messages == [m] + Parse(FrameAll(rest)[..cut - |Frame(m)|]).messages
  {
    var f := Frame(m);
    FrameAllCons(m, rest);
    var s := FrameAll([m] + rest)[..cut];
    assert s[..|f|] == f;
    assert s[|f|..] == FrameAll(rest)[..cut - |f|];
    NextFrameExact(s, m);
  }

  lemma CutInsideFrame(m: Message, rest: seq<Message>, cut: nat)
    requires cut < |Frame(m)| && cut <= |FrameAll([m] + rest)|
    ensures NextFrame(FrameAll([m] + rest)[..cut]).None?
  {
    FrameAllCons(m, rest);
    var s := FrameAll([m] + rest)[..cut];
    assert s == Frame(m)[..cut];
    FrameIsHeaderAndBody(m);
    HeaderShape(m.id, m.typ, |m.data|);
    if cut < HEADER {
      ShortIsIncomplete(s);
    } else {
      assert s[..HEADER] == Header(m.id, m.typ, |m.data|);
      CompleteExactly(s, m.id, m.typ, |m.data|);
    }
  }
}
