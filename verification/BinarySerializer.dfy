/**
 common/BinarySerializer: a growing byte vector with a 32-bit write cursor.
 The cursor wraps as uint32_t does; every contract says exactly when that is harmless.
 */
module BinarySerializerModel {
  import opened Codec

  /** std::vector::resize: drops the tail or appends zero bytes. */
  function Resize(s: seq<byte>, n: nat): (t: seq<byte>)
    ensures |t| == n
    ensures |s| <= n ==> t[..|s|] == s
  {
    if n <= |s| then s[..n] else s + seq(n - |s|, _ => 0)
  }

  lemma LastDigit(v: int, w: nat)
    requires 0 < w
    ensures BigEndian(v, w) == BigEndian(v / 256, w - 1) + [v % 256]
  {
  }

  /** The shift-and-mask expressions of the encoders are the big-endian digits. */
  lemma Digits4(v: int, w: nat)
    requires w == 4
    ensures BigEndian(v, w) == [v / 0x100_0000 % 256, v / 0x1_0000 % 256, v / 0x100 % 256, v % 256]
  {
    var a, b, c := v / 0x100, v / 0x1_0000, v / 0x100_0000;
    assert a / 256 == b && b / 256 == c;
    LastDigit(v, w);
    LastDigit(a, w - 1);
    Digits2(b, w - 2);
    assert BigEndian(v, w) == ([c % 256, b % 256] + [a % 256]) + [v % 256];
  }

  lemma Digits2(v: int, w: nat)
    requires w == 2
    ensures BigEndian(v, w) == [v / 256 % 256, v % 256]
  {
    LastDigit(v, w);
    LastDigit(v / 256, w - 1);
  }

  lemma {:induction false} DigitsSplit(v: int, high: nat, low: nat)
    ensures BigEndian(v, high + low) == BigEndian(v / Pow256(low), high) + BigEndian(v, low)
    decreases low
  {
    if low > 0 {
      DigitsSplit(v / 256, high, low - 1);
      NestedDivision(v, Pow256(low - 1));
      Assoc(BigEndian(v / Pow256(low), high), BigEndian(v / 256, low - 1), [v % 256]);
    }
  }

  lemma NestedDivision(v: int, p: nat)
    requires p > 0
    ensures v / 256 / p == v / (256 * p)
  {
    var q, r := v / 256 / p, v / 256 % p;
    assert v == 256 * (p * q + r) + v % 256;
    assert 256 * (p * q) == (256 * p) * q;
    ModUnique(v, 256 * p, q, 256 * r + v % 256);
  }

  /** Where an element at distance `j` behind the cursor is written: the index is uint32_t. */
  function At(index: uint32, j: nat): (i: uint32)
    ensures index + j < LIMIT ==> i == index + j
    ensures i <= index + j
  {
    (index + j) % LIMIT
  }

  lemma Written4(s: seq<byte>, i: nat, d: seq<byte>)
    requires i + 4 <= |s| && |d| == 4
    ensures s[i := d[0]][i + 1 := d[1]][i + 2 := d[2]][i + 3 := d[3]] == s[..i] + d + s[i + 4..]
  {
  }

  /** Four shift-and-mask stores of the low 32 bits of `v`, at distance `j` behind the cursor. */
  function StoreWord(s: seq<byte>, index: uint32, j: nat, v: int): (t: seq<byte>)
    requires index + j + 4 <= |s|
    ensures |t| == |s|
    ensures index + j + 4 <= LIMIT ==>
              t == s[..index + j] + BigEndian(v, FixedWidth(KI32)) + s[index + j + 4..]
  {
    var t := s[At(index, j) := v / 0x100_0000 % 256]
              [At(index, j + 1) := v / 0x1_0000 % 256]
              [At(index, j + 2) := v / 0x100 % 256]
              [At(index, j + 3) := v % 256];
    assert index + j + 4 <= LIMIT ==> t == s[..index + j] + BigEndian(v, FixedWidth(KI32)) + s[index + j + 4..] by {
      if index + j + 4 <= LIMIT {
        Digits4(v, FixedWidth(KI32));
        Written4(s, index + j, BigEndian(v, FixedWidth(KI32)));
      }
    }
    t
  }

  lemma StoreTwoWords(s: seq<byte>, v: int, w: nat)
    requires |s| + 8 <= LIMIT && w == 8
    ensures var room := Resize(s, |s| + 8);
            StoreWord(StoreWord(room, |s|, 0, v / 0x1_0000_0000), |s|, 4, v) == s + BigEndian(v, w)
  {
    var i, half := |s|, w - 4;
    var high, low := BigEndian(v / 0x1_0000_0000, half), BigEndian(v, half);
    var room := Resize(s, i + 8);
    var once := StoreWord(room, i, 0, v / 0x1_0000_0000);
    assert once == s + high + room[i + 4..];
    assert once[..i + 4] == s + high && once[i + 8..] == [];
    var twice := StoreWord(once, i, 4, v);
    assert twice == (s + high) + low + [];
    Powers();
    DigitsSplit(v, half, half);
    Assoc(s, high, low);
  }

  class BinarySerializer {
    var serialized: seq<byte>
    var index: uint32

    /** The cursor stands at the end of the buffer. */
    predicate Valid()
      reads this
    {
      index == |serialized|
    }

    constructor ()
      ensures Valid() && serialized == []
    {
      serialized, index := [], 0;
    }

    method SerializeUint8(value: byte)
      requires Valid()
      modifies this
      ensures index == (old(index) + 1) % LIMIT
      ensures Valid() <==> old(|serialized|) + 1 < LIMIT
      ensures serialized == old(serialized) + EncodeField(U8(value))
    {
      serialized := Resize(serialized, index + 1);
      serialized := serialized[index := value];
      index := At(index, 1);
      var w := FixedWidth(KU8);
      assert BigEndian(value, w) == BigEndian(value / 256, w - 1) + [value % 256];
      assert BigEndian(value / 256, w - 1) == [];
    }

    method SerializeUint32(value: uint32)
      requires Valid()
      modifies this
      ensures index == (old(index) + 4) % LIMIT
      ensures Valid() <==> old(|serialized|) + 4 < LIMIT
      ensures old(|serialized|) + 4 <= LIMIT ==> serialized == old(serialized) + EncodeField(U32(value))
    {
      serialized := Resize(serialized, index + 4);
      serialized := StoreWord(serialized, index, 0, value);
      index := At(index, 4);
    }

    method SerializeInt32(value: int32)
      requires Valid()
      modifies this
      ensures index == (old(index) + 4) % LIMIT
      ensures Valid() <==> old(|serialized|) + 4 < LIMIT
      ensures old(|serialized|) + 4 <= LIMIT ==> serialized == old(serialized) + EncodeField(I32(value))
    {
      serialized := Resize(serialized, index + 4);
      serialized := StoreWord(serialized, index, 0, value);
      index := At(index, 4);
    }

    method SerializeInt64(value: int64)
      requires Valid()
      modifies this
      ensures index == (old(index) + 8) % LIMIT
      ensures Valid() <==> old(|serialized|) + 8 < LIMIT
      ensures old(|serialized|) + 8 <= LIMIT ==> serialized == old(serialized) + EncodeField(I64(value))
    {
      serialized := Resize(serialized, index + 8);
      serialized := StoreWord(serialized, index, 0, value / 0x1_0000_0000);
      serialized := StoreWord(serialized, index, 4, value);
      if index + 8 <= LIMIT {
        StoreTwoWords(old(serialized), value, FixedWidth(KI64));
      }
      index := At(index, 8);
    }

    /** serialize_str, serialize_byte_vector and serialize_bytes: a truncated length prefix,
        then every byte. */
    method SerializeBytes(value: seq<byte>)
      requires Valid()
      modifies this
      ensures old(|serialized|) + 4 <= LIMIT && |value| < LIMIT ==>
                serialized == old(serialized) + EncodeField(Blob(value))
      ensures old(|serialized|) + 4 <= LIMIT ==> (Valid() <==> old(|serialized|) + 4 + |value| < LIMIT)
    {
      var length := |value| % LIMIT;
      SerializeUint32(length);
      serialized := serialized + value;
      index := At(index, length);
      if old(|serialized|) + 4 <= LIMIT && |value| < LIMIT {
        assert length == |value|;
        Assoc(old(serialized), EncodeField(U32(length)), value);
      }
    }

    /** data(): hands the buffer over and starts again from an empty one. */
    method Data() returns (r: seq<byte>)
      modifies this
      ensures r == old(serialized)
      ensures Valid() && serialized == []
    {
      r := serialized;
      serialized, index := [], 0;
    }
  }

  /** The call for one field. */
  method SerializeField(s: BinarySerializer, f: Field)
    requires s.Valid() && |s.serialized| + |EncodeField(f)| < LIMIT
    modifies s
    ensures s.Valid() && s.serialized == old(s.serialized) + EncodeField(f)
  {
    match f
    case U8(v) => s.SerializeUint8(v);
    case U32(v) => s.SerializeUint32(v);
    case I32(v) => s.SerializeInt32(v);
    case I64(v) => s.SerializeInt64(v);
    case Blob(v) => s.SerializeBytes(v);
  }

  /** Any sequence of calls appends the encoding of its fields and drops nothing. */
  method SerializeAll(s: BinarySerializer, fs: seq<Field>)
    requires s.Valid() && |s.serialized| + |Encode(fs)| < LIMIT
    modifies s
    ensures s.Valid() && s.serialized == old(s.serialized) + Encode(fs)
  {
    ghost var before := s.serialized;
    var i := 0;
    assert fs[0..] == fs && Encode(fs[..0]) == [];
    while i < |fs|
      invariant 0 <= i <= |fs| && s.Valid()
      invariant s.serialized == before + Encode(fs[..i])
    {
      NextField(fs, i);
      SerializeField(s, fs[i]);
      Assoc(before, Encode(fs[..i]), EncodeField(fs[i]));
      i := i + 1;
    }
    assert fs[..i] == fs;
  }

  lemma NextField(fs: seq<Field>, i: nat)
    requires i < |fs|
    ensures Encode(fs[..i + 1]) == Encode(fs[..i]) + EncodeField(fs[i])
    ensures |Encode(fs[..i])| + |EncodeField(fs[i])| <= |Encode(fs)|
  {
    assert fs[..i + 1] == fs[..i] + [fs[i]];
    EncodeAppend(fs[..i], [fs[i]]);
    EncodeOne(fs[i]);
    assert fs == fs[..i + 1] + fs[i + 1..];
    EncodeAppend(fs[..i + 1], fs[i + 1..]);
  }
}
