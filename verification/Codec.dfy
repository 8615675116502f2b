/**
 The wire format as mathematics: big-endian integers, length-prefixed byte strings,
 and lists of typed fields. The classes in BinarySerializer.dfy and
 BinaryDeserializer.dfy are proved against the functions of this module.
 */
module Codec {
  const LIMIT: nat := 0x1_0000_0000

  type byte = x: int | 0 <= x < 0x100
  type uint32 = x: int | 0 <= x < 0x1_0000_0000
  type int32 = x: int | -0x8000_0000 <= x < 0x8000_0000
  type int64 = x: int | -0x8000_0000_0000_0000 <= x < 0x8000_0000_0000_0000
  // A byte string whose length fits its 32-bit prefix.
  type blob = s: seq<byte> | |s| < 0x1_0000_0000 witness []

  datatype Option<+T> = None | Some(value: T)

  // ---------- Sequences ----------

  lemma Assoc<T>(a: seq<T>, b: seq<T>, c: seq<T>)
    ensures (a + b) + c == a + (b + c)
  {
  }

  /** Where `a + b` stands in `s` at `i`, `a` stands at `i` and `b` right behind it. */
  lemma SliceOfSum<T>(s: seq<T>, i: nat, a: seq<T>, b: seq<T>)
    requires i + |a| + |b| <= |s| && s[i..i + |a| + |b|] == a + b
    ensures s[i..i + |a|] == a && s[i + |a|..i + |a| + |b|] == b
  {
    var t := s[i..i + |a| + |b|];
    assert s[i..i + |a|] == t[..|a|];
    assert s[i + |a|..i + |a| + |b|] == t[|a|..];
    assert (a + b)[..|a|] == a && (a + b)[|a|..] == b;
  }

  lemma SplitSlice<T>(s: seq<T>, i: nat, j: nat, k: nat)
    requires i <= j <= k <= |s|
    ensures s[i..k] == s[i..j] + s[j..k]
  {
  }

  // ---------- Integers as bytes ----------

  function Pow256(n: nat): (p: nat)
    ensures p > 0
  {
    if n == 0 then 1 else 256 * Pow256(n - 1)
  }

  /** The `width` low-order bytes of `v`, most significant first. `/` and `%` round towards
      minus infinity here, which is what an arithmetic right shift and a mask do, so negative
      values come out in two's complement. */
  function BigEndian(v: int, width: nat): (s: seq<byte>)
    ensures |s| == width
    decreases width
  {
    if width == 0 then [] else BigEndian(v / 256, width - 1) + [v % 256]
  }

  function Unsigned(s: seq<byte>): (n: nat)
    ensures n < Pow256(|s|)
  {
    if s == [] then 0 else Unsigned(s[..|s| - 1]) * 256 + s[|s| - 1]
  }

  /** The number congruent to `n` modulo 2^(8*width) in the signed range of that width. */
  function Wrap(n: int, width: nat): (v: int)
    requires width > 0
  {
    var m := n % Pow256(width);
    if m < 128 * Pow256(width - 1) then m else m - Pow256(width)
  }

  lemma ModStep(v: int, p: nat)
    requires p > 0
    ensures v % (256 * p) == (v / 256) % p * 256 + v % 256
  {
    var q, r := (v / 256) / p, (v / 256) % p;
    assert v == 256 * (q * p + r) + v % 256;
    assert v == (256 * p) * q + (256 * r + v % 256) by {
      assert 256 * (q * p) == (256 * p) * q;
    }
    assert 0 <= 256 * r + v % 256 < 256 * p;
    ModUnique(v, 256 * p, q, 256 * r + v % 256);
  }

  lemma MultipleBound(m: int, k: int)
    requires m > 0 && -m < m * k < m
    ensures k == 0
  {
  }

  lemma ModUnique(v: int, m: int, q: int, r: int)
    requires m > 0 && v == m * q + r && 0 <= r < m
    ensures v % m == r && v / m == q
  {
    var q', r' := v / m, v % m;
    assert v == m * q' + r';
    assert m * (q - q') == m * q - m * q';
    MultipleBound(m, q - q');
  }

  lemma {:induction false} UnsignedOfBigEndian(v: int, width: nat)
    ensures Unsigned(BigEndian(v, width)) == v % Pow256(width)
    decreases width
  {
    if width > 0 {
      var s := BigEndian(v, width);
      assert s[..width - 1] == BigEndian(v / 256, width - 1);
      UnsignedOfBigEndian(v / 256, width - 1);
      ModStep(v, Pow256(width - 1));
    }
  }

  /** Bytes determine the number and the number determines the bytes, up to the modulus. */
  lemma {:induction false} BigEndianOfUnsigned(v: int, s: seq<byte>)
    requires v % Pow256(|s|) == Unsigned(s)
    ensures BigEndian(v, |s|) == s
    decreases |s|
  {
    if s != [] {
      var p := Pow256(|s| - 1);
      ModStep(v, p);
      assert v % 256 == s[|s| - 1] && (v / 256) % p == Unsigned(s[..|s| - 1]);
      BigEndianOfUnsigned(v / 256, s[..|s| - 1]);
    }
  }

  /** Every value of a signed type is recovered from its two's-complement bytes. */
  lemma SignedRoundTrip(v: int, width: nat)
    requires width > 0 && -128 * Pow256(width - 1) <= v < 128 * Pow256(width - 1)
    ensures Wrap(Unsigned(BigEndian(v, width)), width) == v
  {
    var p := Pow256(width);
    UnsignedOfBigEndian(v, width);
    if v < 0 {
      ModUnique(v, p, -1, v + p);
      ModUnique(v + p, p, 0, v + p);
    } else {
      ModUnique(v, p, 0, v);
    }
  }

  lemma WrapInRange(n: int, width: nat)
    requires width > 0
    ensures -128 * Pow256(width - 1) <= Wrap(n, width) < 128 * Pow256(width - 1)
    ensures Wrap(n, width) % Pow256(width) == n % Pow256(width)
  {
    var p := Pow256(width);
    var m := n % p;
    if m >= 128 * Pow256(width - 1) {
      ModUnique(m - p, p, -1, m);
    } else {
      ModUnique(m, p, 0, m);
    }
  }

  /** One round of the signed accumulation loop: shift left by a byte in the fixed width,
      then add the next byte. */
  lemma WrapStep(n: int, b: byte, width: nat)
    requires width > 1
    ensures Wrap(Wrap(n, width) * 256, width) + b == Wrap(n * 256 + b, width)
  {
    var p, h := Pow256(width), Pow256(width - 1);
    WrapInRange(n, width);
    var w := Wrap(n, width);
    var q := w / p - n / p;
    assert w - n == p * q by {
      assert w == p * (w / p) + w % p && n == p * (n / p) + n % p;
      assert p * q == p * (w / p) - p * (n / p);
    }
    assert w * 256 == n * 256 + p * (256 * q) by {
      assert p * (256 * q) == 256 * (p * q);
    }
    ModShift(n * 256, p, 256 * q);
    ModStep(n * 256, h);
    ModStep(n * 256 + b, h);
    assert (n * 256) / 256 == n && (n * 256 + b) / 256 == n;
    assert h == 256 * Pow256(width - 2);
  }

  lemma ModShift(x: int, m: int, k: int)
    requires m > 0
    ensures (x + m * k) % m == x % m
  {
    assert m * (x / m + k) == m * (x / m) + m * k;
    ModUnique(x + m * k, m, x / m + k, x % m);
  }

  lemma Powers()
    ensures Pow256(0) == 1
    ensures Pow256(1) == 0x100
    ensures Pow256(3) == 0x100_0000
    ensures Pow256(4) == 0x1_0000_0000
    ensures Pow256(7) == 0x100_0000_0000_0000
    ensures Pow256(8) == 0x1_0000_0000_0000_0000
  {
    assert Pow256(2) == 0x1_0000 && Pow256(3) == 256 * Pow256(2) && Pow256(4) == 256 * Pow256(3);
    assert Pow256(5) == 256 * Pow256(4) && Pow256(6) == 256 * Pow256(5);
    assert Pow256(7) == 256 * Pow256(6) && Pow256(8) == 256 * Pow256(7);
  }

  // ---------- Typed fields ----------

  // `Blob` is both a string and a byte vector: the two are written the same way.
  datatype Field = U8(u8: byte) | U32(u32: uint32) | I32(i32: int32) | I64(i64: int64) | Blob(bytes: blob)
  datatype Kind = KU8 | KU32 | KI32 | KI64 | KBlob

  function KindOf(f: Field): Kind {
    match f
    case U8(_) => KU8
    case U32(_) => KU32
    case I32(_) => KI32
    case I64(_) => KI64
    case Blob(_) => KBlob
  }

  function KindsOf(fs: seq<Field>): (ks: seq<Kind>)
    ensures |ks| == |fs|
  {
    if fs == [] then [] else [KindOf(fs[0])] + KindsOf(fs[1..])
  }

  function EncodeField(f: Field): seq<byte> {
    var w := FixedWidth(KindOf(f));
    match f
    case U8(v) => BigEndian(v, w)
    case U32(v) => BigEndian(v, w)
    case I32(v) => BigEndian(v, w)
    case I64(v) => BigEndian(v, w)
    case Blob(s) => BigEndian(|s|, w) + s
  }

  function Encode(fs: seq<Field>): seq<byte> {
    if fs == [] then [] else EncodeField(fs[0]) + Encode(fs[1..])
  }

  /** What one read from `s` at cursor `i` gives: the field, or nothing when the call throws,
      and where the cursor is left. A string whose length prefix can be read but whose body is
      missing throws with the cursor already past the prefix. */
  datatype Reading = Reading(field: Option<Field>, next: nat)

  function FixedWidth(k: Kind): (w: nat)
    ensures w > 0
  {
    match k
    case KU8 => 1
    case KU32 => 4
    case KI32 => 4
    case KI64 => 8
    case KBlob => 4
  }

  function FixedField(k: Kind, s: seq<byte>): Field
    requires |s| == FixedWidth(k) && k != KBlob
  {
    Powers();
    WrapInRange(Unsigned(s), |s|);
    match k
    case KU8 => U8(Unsigned(s))
    case KU32 => U32(Unsigned(s))
    case KI32 => I32(Wrap(Unsigned(s), 4))
    case KI64 => I64(Wrap(Unsigned(s), 8))
  }

  function ReadField(k: Kind, s: seq<byte>, i: nat): (r: Reading)
    requires i <= |s|
    ensures i <= r.next <= |s|
    ensures r.field.Some? ==> KindOf(r.field.value) == k
  {
    var w := FixedWidth(k);
    if w > |s| - i then Reading(None, i)
    else if k != KBlob then Reading(Some(FixedField(k, s[i..i + w])), i + w)
    else
      Powers();
      var n := Unsigned(s[i..i + 4]);
      if n > |s| - i - 4 then Reading(None, i + 4)
      else
        assert |s[i + 4..i + 4 + n]| == n;
        Reading(Some(Blob(s[i + 4..i + 4 + n])), i + 4 + n)
  }

  datatype Readings = Readings(fields: Option<seq<Field>>, next: nat)

  /** Reading a whole schema; the first call that throws ends it. */
  function Decode(ks: seq<Kind>, s: seq<byte>, i: nat): (r: Readings)
    requires i <= |s|
    ensures i <= r.next <= |s|
  {
    if ks == [] then Readings(Some([]), i)
    else
      var first := ReadField(ks[0], s, i);
      if first.field.None? then Readings(None, first.next)
      else
        var rest := Decode(ks[1..], s, first.next);
        if rest.fields.None? then rest
        else Readings(Some([first.field.value] + rest.fields.value), rest.next)
  }

  // ---------- Round trips ----------

  lemma BlobRoundTrip(f: Field, s: seq<byte>, i: nat)
    requires f.Blob? && i + |EncodeField(f)| <= |s|
    requires s[i..i + |EncodeField(f)|] == EncodeField(f)
    ensures ReadField(KindOf(f), s, i) == Reading(Some(f), i + |EncodeField(f)|)
  {
    Powers();
    var n, w := |f.bytes|, FixedWidth(KindOf(f));
    SliceOfSum(s, i, BigEndian(n, w), f.bytes);
    UnsignedOfBigEndian(n, w);
    ModUnique(n, Pow256(w), 0, n);
  }

  lemma FieldRoundTrip(f: Field, s: seq<byte>, i: nat)
    requires i + |EncodeField(f)| <= |s|
    requires s[i..i + |EncodeField(f)|] == EncodeField(f)
    ensures ReadField(KindOf(f), s, i) == Reading(Some(f), i + |EncodeField(f)|)
  {
    Powers();
    var w := FixedWidth(KindOf(f));
    match f {
      case U8(v) => UnsignedOfBigEndian(v, w); ModUnique(v, Pow256(w), 0, v);
      case U32(v) => UnsignedOfBigEndian(v, w); ModUnique(v, Pow256(w), 0, v);
      case I32(v) => SignedRoundTrip(v, w);
      case I64(v) => SignedRoundTrip(v, w);
      case Blob(_) => BlobRoundTrip(f, s, i);
    }
  }

  lemma DecodeCons(k: Kind, ks: seq<Kind>, s: seq<byte>, i: nat, f: Field, j: nat, fs: seq<Field>, end: nat)
    requires i <= |s| && ReadField(k, s, i) == Reading(Some(f), j)
    requires j <= |s| && Decode(ks, s, j) == Readings(Some(fs), end)
    ensures Decode([k] + ks, s, i) == Readings(Some([f] + fs), end)
  {
    assert ([k] + ks)[1..] == ks;
  }

  lemma FirstFieldOf(f: Field, rest: seq<byte>, s: seq<byte>, i: nat) returns (j: nat)
    requires i + |EncodeField(f) + rest| <= |s|
    requires s[i..i + |EncodeField(f) + rest|] == EncodeField(f) + rest
    ensures j + |rest| == i + |EncodeField(f) + rest| && s[j..j + |rest|] == rest
    ensures ReadField(KindOf(f), s, i) == Reading(Some(f), j)
  {
    j := i + |EncodeField(f)|;
    SliceOfSum(s, i, EncodeField(f), rest);
    FieldRoundTrip(f, s, i);
  }

  /** Reading back any list of typed fields, wherever it stands in a buffer, gives the same
      values and leaves the cursor exactly at what follows. */
  lemma {:induction false} RoundTrip(fs: seq<Field>, s: seq<byte>, i: nat)
    requires i + |Encode(fs)| <= |s|
    requires s[i..i + |Encode(fs)|] == Encode(fs)
    ensures Decode(KindsOf(fs), s, i) == Readings(Some(fs), i + |Encode(fs)|)
  {
    if fs != [] {
      var rest := fs[1..];
      var j := FirstFieldOf(fs[0], Encode(rest), s, i);
      RoundTrip(rest, s, j);
      DecodeCons(KindOf(fs[0]), KindsOf(rest), s, i, fs[0], j, rest, j + |Encode(rest)|);
      assert [fs[0]] + rest == fs;
    }
  }

  lemma FieldCanonical(k: Kind, s: seq<byte>, i: nat)
    requires i <= |s| && ReadField(k, s, i).field.Some?
    ensures var r := ReadField(k, s, i); s[i..r.next] == EncodeField(r.field.value)
  {
    Powers();
    var r := ReadField(k, s, i);
    var head := s[i..i + FixedWidth(k)];
    var n := Unsigned(head);
    ModUnique(n, Pow256(|head|), 0, n);
    match k {
      case KU8 => BigEndianOfUnsigned(n, head);
      case KU32 => BigEndianOfUnsigned(n, head);
      case KI32 => WrapInRange(n, 4); BigEndianOfUnsigned(Wrap(n, 4), head);
      case KI64 => WrapInRange(n, 8); BigEndianOfUnsigned(Wrap(n, 8), head);
      case KBlob =>
        BigEndianOfUnsigned(n, head);
        SplitSlice(s, i, i + 4, r.next);
    }
  }

  /** Whatever a schema accepts is the encoding of what it returns: no two inputs decode alike. */
  lemma {:induction false} Canonical(ks: seq<Kind>, s: seq<byte>, i: nat)
    requires i <= |s| && Decode(ks, s, i).fields.Some?
    ensures var r := Decode(ks, s, i); KindsOf(r.fields.value) == ks && s[i..r.next] == Encode(r.fields.value)
  {
    if ks != [] {
      var first := ReadField(ks[0], s, i);
      FieldCanonical(ks[0], s, i);
      Canonical(ks[1..], s, first.next);
      var fs, rest := Decode(ks, s, i).fields.value, Decode(ks[1..], s, first.next);
      assert fs[1..] == rest.fields.value;
      SplitSlice(s, i, first.next, rest.next);
    }
  }

  /** Encodings of one schema are prefix-free, so what follows them is determined too. */
  lemma PrefixFree(fs: seq<Field>, gs: seq<Field>, s: seq<byte>, t: seq<byte>)
    requires KindsOf(fs) == KindsOf(gs)
    requires Encode(fs) + s == Encode(gs) + t
    ensures fs == gs && s == t
  {
    var all := Encode(fs) + s;
    assert all[0..|Encode(fs)|] == Encode(fs);
    assert all[0..|Encode(gs)|] == Encode(gs);
    RoundTrip(fs, all, 0);
    RoundTrip(gs, all, 0);
    assert s == all[|Encode(fs)|..] && t == all[|Encode(gs)|..];
  }

  lemma EncodeCons(f: Field, fs: seq<Field>)
    ensures Encode([f] + fs) == EncodeField(f) + Encode(fs)
  {
    assert ([f] + fs)[1..] == fs;
  }

  lemma {:induction false} EncodeAppend(fs: seq<Field>, gs: seq<Field>)
    ensures Encode(fs + gs) == Encode(fs) + Encode(gs)
  {
    if fs == [] {
      assert fs + gs == gs;
    } else {
      var f, rest := fs[0], fs[1..];
      calc {
        Encode(fs + gs);
        { assert fs + gs == [f] + (rest + gs); EncodeCons(f, rest + gs); }
        EncodeField(f) + Encode(rest + gs);
        { EncodeAppend(rest, gs); }
        EncodeField(f) + (Encode(rest) + Encode(gs));
        { Assoc(EncodeField(f), Encode(rest), Encode(gs)); }
        Encode(fs) + Encode(gs);
      }
    }
  }

  // ---------- Short lists, spelled out ----------

  lemma EncodeOne(a: Field)
    ensures Encode([a]) == EncodeField(a)
  {
    assert [a][1..] == [];
    assert EncodeField(a) + [] == EncodeField(a);
  }

  lemma EncodeTwo(a: Field, b: Field)
    ensures Encode([a, b]) == EncodeField(a) + EncodeField(b)
  {
    assert [a, b] == [a] + [b];
    EncodeCons(a, [b]);
    EncodeOne(b);
  }

  lemma EncodeThree(a: Field, b: Field, c: Field)
    ensures Encode([a, b, c]) == EncodeField(a) + EncodeField(b) + EncodeField(c)
  {
    assert [a, b, c] == [a] + [b, c];
    EncodeCons(a, [b, c]);
    EncodeTwo(b, c);
    Assoc(EncodeField(a), EncodeField(b), EncodeField(c));
  }

  lemma KindsOfTwo(a: Field, b: Field)
    ensures KindsOf([a, b]) == [KindOf(a), KindOf(b)]
  {
    assert [a, b][1..] == [b] && [b][1..] == [];
    assert KindsOf([b]) == [KindOf(b)];
  }

  lemma KindsOfThree(a: Field, b: Field, c: Field)
    ensures KindsOf([a, b, c]) == [KindOf(a), KindOf(b), KindOf(c)]
  {
    assert [a, b, c][1..] == [b, c];
    KindsOfTwo(b, c);
  }

  lemma DecodeOne(k: Kind, s: seq<byte>, i: nat)
    requires i <= |s|
    ensures var r := ReadField(k, s, i);
            Decode([k], s, i) == Readings(if r.field.None? then None else Some([r.field.value]), r.next)
  {
    assert [k][1..] == [];
    var r := ReadField(k, s, i);
    if r.field.Some? {
      assert [r.field.value] + [] == [r.field.value];
    }
  }

  lemma DecodeTwo(k: Kind, l: Kind, s: seq<byte>, i: nat)
    requires i <= |s|
    ensures var a := ReadField(k, s, i);
            if a.field.None? then Decode([k, l], s, i) == Readings(None, a.next)
            else
              var b := ReadField(l, s, a.next);
              Decode([k, l], s, i)
              == Readings(if b.field.None? then None else Some([a.field.value, b.field.value]), b.next)
  {
    assert [k, l][1..] == [l];
    var a := ReadField(k, s, i);
    if a.field.Some? {
      DecodeOne(l, s, a.next);
      var b := ReadField(l, s, a.next);
      if b.field.Some? {
        assert [a.field.value] + [b.field.value] == [a.field.value, b.field.value];
      }
    }
  }

  lemma DecodeThree(k: Kind, l: Kind, m: Kind, s: seq<byte>, i: nat)
    requires i <= |s|
    ensures var a := ReadField(k, s, i);
            if a.field.None? then Decode([k, l, m], s, i) == Readings(None, a.next)
            else
              var b := ReadField(l, s, a.next);
              if b.field.None? then Decode([k, l, m], s, i) == Readings(None, b.next)
              else
                var c := ReadField(m, s, b.next);
                Decode([k, l, m], s, i)
                == Readings(if c.field.None? then None
                            else Some([a.field.value, b.field.value, c.field.value]), c.next)
  {
    assert [k, l, m][1..] == [l, m];
    var a := ReadField(k, s, i);
    if a.field.Some? {
      DecodeTwo(l, m, s, a.next);
      var b := ReadField(l, s, a.next);
      if b.field.Some? {
        var c := ReadField(m, s, b.next);
        if c.field.Some? {
          assert [a.field.value] + [b.field.value, c.field.value] == [a.field.value, b.field.value, c.field.value];
        }
      }
    }
  }
}
