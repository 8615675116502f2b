/**
 common/BinaryDeserializer: a read cursor over a byte vector. A call that throws returns None
 and leaves the cursor where the C++ code leaves it.
 */
module BinaryDeserializerModel {
  import opened Codec
  import opened BinarySerializerModel

  class BinaryDeserializer {
    const serialized: seq<byte>
    var index: uint32

    predicate Valid()
      reads this
    {
      index <= |serialized| < LIMIT
    }

    constructor (bytes: seq<byte>)
      requires |bytes| < LIMIT
      ensures Valid() && serialized == bytes && index == 0
    {
      serialized, index := bytes, 0;
    }

    function BytesAvailable(): (n: uint32)
      requires Valid()
      reads this
      ensures index + n == |serialized|
    {
      |serialized| - index
    }

    method DeserializeUint8() returns (r: Option<byte>)
      requires Valid()
      modifies this
      ensures Valid()
      ensures ReadField(KU8, serialized, old(index)) == Reading(if r.Some? then Some(U8(r.value)) else None, index)
    {
      if 1 > BytesAvailable() {
        return None;
      }
      Powers();
      r := Some(serialized[index]);
      assert serialized[index..index + 1] == [serialized[index]];
      index := index + 1;
    }

    method DeserializeUint32() returns (r: Option<uint32>)
      requires Valid()
      modifies this
      ensures Valid()
      ensures ReadField(KU32, serialized, old(index)) == Reading(if r.Some? then Some(U32(r.value)) else None, index)
    {
      if 4 > BytesAvailable() {
        return None;
      }
      Powers();
      var value: uint32 := 0;
      var start, i := index, 0;
      while i < 4
        invariant 0 <= i <= 4 && index == start + i && Valid()
        invariant value == Unsigned(serialized[start..index])
      {
        var seen := serialized[start..index + 1];
        assert seen[..i] == serialized[start..index] && seen[i] == serialized[index];
        assert value < 0x100_0000 by {
          PowMonotone(i, 3);
        }
        value := value * 256 % LIMIT;
        value := value + serialized[index];
        i, index := i + 1, index + 1;
      }
      r := Some(value);
    }

    method DeserializeInt32() returns (r: Option<int32>)
      requires Valid()
      modifies this
      ensures Valid()
      ensures ReadField(KI32, serialized, old(index)) == Reading(if r.Some? then Some(I32(r.value)) else None, index)
    {
      var w := FixedWidth(KI32);
      if w > BytesAvailable() {
        return None;
      }
      Powers();
      var value: int32 := 0;
      var start, i := index, 0;
      while i < w
        invariant 0 <= i <= w && index == start + i && Valid()
        invariant value == Wrap(Unsigned(serialized[start..index]), w)
      {
        SignedRound(serialized, start, index, w);
        WrapInRange(value * 256, w);
        WrapInRange(Unsigned(serialized[start..index + 1]), w);
        value := Wrap(value * 256, w);
        value := value + serialized[index];
        i, index := i + 1, index + 1;
      }
      r := Some(value);
    }

    method DeserializeInt64() returns (r: Option<int64>)
      requires Valid()
      modifies this
      ensures Valid()
      ensures ReadField(KI64, serialized, old(index)) == Reading(if r.Some? then Some(I64(r.value)) else None, index)
    {
      var w := FixedWidth(KI64);
      if w > BytesAvailable() {
        return None;
      }
      Powers();
      var value: int64 := 0;
      var start, i := index, 0;
      while i < w
        invariant 0 <= i <= w && index == start + i && Valid()
        invariant value == Wrap(Unsigned(serialized[start..index]), w)
      {
        SignedRound(serialized, start, index, w);
        WrapInRange(value * 256, w);
        WrapInRange(Unsigned(serialized[start..index + 1]), w);
        value := Wrap(value * 256, w);
        value := value + serialized[index];
        i, index := i + 1, index + 1;
      }
      r := Some(value);
    }

    /** deserialize_byte_vector(length): exactly `length` bytes, no prefix. */
    method TakeBytes(length: uint32) returns (r: Option<blob>)
      requires Valid()
      modifies this
      ensures Valid()
      ensures r.Some? <==> length <= |serialized| - old(index)
      ensures r.Some? ==> index == old(index) + length && r.value == serialized[old(index)..index]
      ensures r.None? ==> index == old(index)
    {
      if length > BytesAvailable() {
        return None;
      }
      r := Some(serialized[index..index + length]);
      index := index + length;
    }

    /** deserialize_str and deserialize_byte_vector(). */
    method DeserializeBytes() returns (r: Option<blob>)
      requires Valid()
      modifies this
      ensures Valid()
      ensures ReadField(KBlob, serialized, old(index)) == Reading(if r.Some? then Some(Blob(r.value)) else None, index)
    {
      var length := DeserializeUint32();
      if length.None? {
        return None;
      }
      Powers();
      r := TakeBytes(length.value);
    }
  }

  /** One round of a signed loop that has read `s[start..i]`. */
  lemma SignedRound(s: seq<byte>, start: nat, i: nat, w: nat)
    requires start <= i < |s| && 1 < w
    ensures Wrap(Wrap(Unsigned(s[start..i]), w) * 256, w) + s[i] == Wrap(Unsigned(s[start..i + 1]), w)
  {
    var seen := s[start..i + 1];
    assert seen[..i - start] == s[start..i] && seen[i - start] == s[i];
    WrapStep(Unsigned(s[start..i]), s[i], w);
  }

  lemma {:induction false} PowMonotone(m: nat, n: nat)
    requires m <= n
    ensures Pow256(m) <= Pow256(n)
    decreases n
  {
    if m < n {
      PowMonotone(m, n - 1);
    }
  }

  /** The call for one field; None when it throws. */
  method DeserializeField(d: BinaryDeserializer, k: Kind) returns (r: Option<Field>)
    requires d.Valid()
    modifies d
    ensures d.Valid() && ReadField(k, d.serialized, old(d.index)) == Reading(r, d.index)
  {
    match k
    case KU8 => var v := d.DeserializeUint8(); r := if v.Some? then Some(U8(v.value)) else None;
    case KU32 => var v := d.DeserializeUint32(); r := if v.Some? then Some(U32(v.value)) else None;
    case KI32 => var v := d.DeserializeInt32(); r := if v.Some? then Some(I32(v.value)) else None;
    case KI64 => var v := d.DeserializeInt64(); r := if v.Some? then Some(I64(v.value)) else None;
    case KBlob => var v := d.DeserializeBytes(); r := if v.Some? then Some(Blob(v.value)) else None;
  }

  /** Any sequence of calls, up to the first that throws, on arbitrary bytes: fields and cursor are
      those of the schema, and the cursor stays inside the buffer. */
  method DeserializeAll(d: BinaryDeserializer, ks: seq<Kind>) returns (r: Option<seq<Field>>)
    requires d.Valid()
    modifies d
    ensures d.Valid() && Decode(ks, d.serialized, old(d.index)) == Readings(r, d.index)
  {
    ghost var start, all := d.index, Decode(ks, d.serialized, d.index);
    var i, fs: seq<Field> := 0, [];
    assert ks[0..] == ks;
    assert all.fields.Some? ==> [] + all.fields.value == all.fields.value;
    while i < |ks|
      invariant 0 <= i <= |ks| && d.Valid()
      invariant var rest := Decode(ks[i..], d.serialized, d.index);
                all == Readings(if rest.fields.None? then None else Some(fs + rest.fields.value), rest.next)
    {
      assert ks[i..][1..] == ks[i + 1..];
      ghost var at := d.index;
      var f := DeserializeField(d, ks[i]);
      if f.None? {
        return None;
      }
      ghost var rest := Decode(ks[i + 1..], d.serialized, d.index);
      if rest.fields.Some? {
        Assoc(fs, [f.value], rest.fields.value);
      }
      fs := fs + [f.value];
      i := i + 1;
    }
    assert fs + [] == fs;
    r := Some(fs);
  }

  /** Writing any fields through one class and reading them through the other gives them back. */
  method WriteThenRead(fs: seq<Field>) returns (r: Option<seq<Field>>)
    requires |Encode(fs)| < LIMIT
    ensures r == Some(fs)
  {
    var s := new BinarySerializer();
    SerializeAll(s, fs);
    var bytes := s.Data();
    assert [] + Encode(fs) == Encode(fs) && bytes[0..0 + |Encode(fs)|] == Encode(fs);
    RoundTrip(fs, bytes, 0);
    var d := new BinaryDeserializer(bytes);
    r := DeserializeAll(d, KindsOf(fs));
  }
}
