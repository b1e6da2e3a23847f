/** The mapped view as the code sees it: a sequence of bytes read through
    MemoryMappedViewAccessor (little-endian, bounds-checked), C#'s unchecked
    32-bit and 16-bit integer conversions, and the Windows-1252 decoding of
    byte strings with their trailing NULs trimmed. */
module Memory {
  import opened Wrappers

  type byte = b: int | 0 <= b < 256

  const TwoTo31: int := 0x8000_0000
  const TwoTo32: int := 0x1_0000_0000

  predicate IsInt32(x: int) { -TwoTo31 <= x < TwoTo31 }
  predicate IsInt16(x: int) { -0x8000 <= x < 0x8000 }

  /** Two's-complement wrap-around of C#'s unchecked `int` arithmetic and of a
      `(int)` cast from a wider integer. */
  function Wrap32(x: int): (r: int)
    ensures IsInt32(r)
    ensures IsInt32(x) ==> r == x
  {
    (x + TwoTo31) % TwoTo32 - TwoTo31
  }

  /** The wrapped value differs from the exact one by a multiple of 2^32. */
  lemma Wrap32Congruent(x: int)
    ensures (x - Wrap32(x)) % TwoTo32 == 0
  {
    var m := (x + TwoTo31) % TwoTo32;
    assert x - (m - TwoTo31) == TwoTo32 * ((x + TwoTo31) / TwoTo32);
  }

  /** C#'s `(short)` cast: keeps the low 16 bits, two's complement. */
  function Wrap16(x: int): (r: int)
    ensures IsInt16(r)
    ensures IsInt16(x) ==> r == x
    ensures (x - r) % 0x1_0000 == 0
  {
    var m := (x + 0x8000) % 0x1_0000;
    assert x - (m - 0x8000) == 0x1_0000 * ((x + 0x8000) / 0x1_0000);
    m - 0x8000
  }

  /** Wrapping once at the end equals wrapping after every step. */
  lemma Wrap32Absorbs(x: int, y: int)
    ensures Wrap32(Wrap32(x) + y) == Wrap32(x + y)
  {
    var k := (x - Wrap32(x)) / TwoTo32;
    assert x == Wrap32(x) + k * TwoTo32;
    Wrap32Shift(Wrap32(x) + y, k);
  }

  lemma Wrap32Shift(x: int, k: int)
    ensures Wrap32(x + k * TwoTo32) == Wrap32(x)
  {
    assert (x + k * TwoTo32 + TwoTo31) % TwoTo32 == (x + TwoTo31) % TwoTo32;
  }

  // ---------------------------------------------------------------------------
  // Reads through the view accessor

  predicate CanRead(v: seq<byte>, pos: int, size: nat) { 0 <= pos && pos + size <= |v| }

  /** The unsigned little-endian value of the 4 bytes at `pos`. */
  function UInt32At(v: seq<byte>, pos: int): nat
    requires CanRead(v, pos, 4)
  {
    (v[pos] as int) + 0x100 * (v[pos + 1] as int) + 0x1_0000 * (v[pos + 2] as int) + 0x100_0000 * (v[pos + 3] as int)
  }

  /** The signed value of the 4 bytes at `pos`, as ReadInt32 returns it. */
  function Int32At(v: seq<byte>, pos: int): int
    requires CanRead(v, pos, 4)
  {
    Wrap32(UInt32At(v, pos))
  }

  /** ReadInt32: throws when the 4 bytes do not all lie inside the view. */
  function ReadInt32(v: seq<byte>, pos: int): (r: Result<int>)
    ensures r.Ok? <==> CanRead(v, pos, 4)
    ensures r.Ok? ==> IsInt32(r.value)
    ensures r.Err? ==> r.fault == OutOfView
  {
    if CanRead(v, pos, 4) then Ok(Int32At(v, pos)) else Err(OutOfView)
  }

  /** ReadBoolean: one byte, true when it is not zero. */
  function ReadBoolean(v: seq<byte>, pos: int): (r: Result<bool>)
    ensures r.Ok? <==> CanRead(v, pos, 1)
    ensures r.Ok? ==> (r.value <==> v[pos] != 0)
  {
    if CanRead(v, pos, 1) then Ok(v[pos] != 0) else Err(OutOfView)
  }

  /** Floating-point values are kept opaque: the bit pattern as read. */
  datatype Float32 = Float32(bits: nat)
  datatype Float64 = Float64(bits: nat)

  function ReadSingle(v: seq<byte>, pos: int): (r: Result<Float32>)
    ensures r.Ok? <==> CanRead(v, pos, 4)
  {
    if CanRead(v, pos, 4) then Ok(Float32(UInt32At(v, pos))) else Err(OutOfView)
  }

  function ReadDouble(v: seq<byte>, pos: int): (r: Result<Float64>)
    ensures r.Ok? <==> CanRead(v, pos, 8)
  {
    if CanRead(v, pos, 8) then Ok(Float64(UInt32At(v, pos) + TwoTo32 * UInt32At(v, pos + 4)))
    else Err(OutOfView)
  }

  /** How many elements of `size` bytes ReadArray(pos, array, 0, count)
      transfers: it throws on a negative count, on an array shorter than
      count and on a position outside [0, capacity); otherwise it reads as
      many whole elements as fit, at most count. */
  function ReadArrayCount(v: seq<byte>, pos: int, count: int, arrayLength: nat, size: nat): (r: Result<nat>)
    requires size > 0
    ensures r.Ok? <==> 0 <= count <= arrayLength && 0 <= pos < |v|
    ensures r.Ok? ==> r.value <= count && CanRead(v, pos, size * r.value)
    ensures r.Ok? && r.value < count ==> !CanRead(v, pos, size * (r.value + 1))
  {
    if count < 0 || arrayLength < count then Err(ArgumentOutOfRange)
    else if pos < 0 || pos >= |v| then Err(OutOfView)
    else
      var n := if size * count <= |v| - pos then count else (|v| - pos) / size;
      assert size * n <= |v| - pos;
      Ok(n)
  }

  /** The bytes that ReadArray<byte> leaves in a fresh `new byte[count]`:
      the readable prefix from the view, zeros after it. */
  function ReadBytes(v: seq<byte>, pos: int, count: int): (r: Result<seq<byte>>)
    ensures r.Ok? <==> 0 <= count && 0 <= pos < |v|
    ensures r.Ok? ==> |r.value| == count
    ensures r.Ok? ==> forall k :: 0 <= k < count ==>
              r.value[k] == (if pos + k < |v| then v[pos + k] else 0)
  {
    match ReadArrayCount(v, pos, count, if count < 0 then 0 else count, 1)
    case Err(f) => Err(f)
    case Ok(n) =>
      Ok(seq(count, k requires 0 <= k < count => if k < n then v[pos + k] else 0))
  }

  // ---------------------------------------------------------------------------
  // Writing an int the way the producer lays it out, for round trips

  function EncodeInt32(x: int): (b: seq<byte>)
    requires IsInt32(x)
    ensures |b| == 4
  {
    var u := if x < 0 then x + TwoTo32 else x;
    [u % 0x100, (u / 0x100) % 0x100, (u / 0x1_0000) % 0x100, u / 0x100_0000]
  }

  lemma ReadEncodedInt32(pre: seq<byte>, x: int, post: seq<byte>)
    requires IsInt32(x)
    ensures ReadInt32(pre + EncodeInt32(x) + post, |pre|) == Ok(x)
  {
    var v := pre + EncodeInt32(x) + post;
    var u := if x < 0 then x + TwoTo32 else x;
    var p := |pre|;
    assert v[p] == u % 0x100 && v[p + 1] == (u / 0x100) % 0x100;
    assert v[p + 2] == (u / 0x1_0000) % 0x100 && v[p + 3] == u / 0x100_0000;
    assert u / 0x1_0000 == (u / 0x100) / 0x100;
    assert u / 0x100_0000 == (u / 0x1_0000) / 0x100;
    assert UInt32At(v, p) == u;
  }

  // ---------------------------------------------------------------------------
  // Windows-1252 (Encoding.GetEncoding(1252)) and TrimEnd('\0')

  /** Windows-1252: bytes below 0x80 and from 0xA0 up map to the same code
      point; 0x80..0x9F map to the typographic characters, and the five
      unassigned bytes (0x81, 0x8D, 0x8F, 0x90, 0x9D) map to the C1 control
      with the same number. */
  function Cp1252(b: byte): char
  {
    if b < 0x80 || b >= 0xA0 then b as char
    else if b == 0x80 then '€' else if b == 0x82 then '‚'
    else if b == 0x83 then 'ƒ' else if b == 0x84 then '„'
    else if b == 0x85 then '…' else if b == 0x86 then '†'
    else if b == 0x87 then '‡' else if b == 0x88 then 'ˆ'
    else if b == 0x89 then '‰' else if b == 0x8A then 'Š'
    else if b == 0x8B then '‹' else if b == 0x8C then 'Œ'
    else if b == 0x8E then 'Ž' else if b == 0x91 then '‘'
    else if b == 0x92 then '’' else if b == 0x93 then '“'
    else if b == 0x94 then '”' else if b == 0x95 then '•'
    else if b == 0x96 then '–' else if b == 0x97 then '—'
    else if b == 0x98 then '˜' else if b == 0x99 then '™'
    else if b == 0x9A then 'š' else if b == 0x9B then '›'
    else if b == 0x9C then 'œ' else if b == 0x9E then 'ž'
    else if b == 0x9F then 'Ÿ'
    else b as char
  }

  /** A left inverse of Cp1252: the byte a decoded character came from. */
  function Cp1252Byte(c: char): Option<byte>
  {
    if c as int < 0x100 then Some(c as int)
    else if c == '€' then Some(0x80) else if c == '‚' then Some(0x82)
    else if c == 'ƒ' then Some(0x83) else if c == '„' then Some(0x84)
    else if c == '…' then Some(0x85) else if c == '†' then Some(0x86)
    else if c == '‡' then Some(0x87) else if c == 'ˆ' then Some(0x88)
    else if c == '‰' then Some(0x89) else if c == 'Š' then Some(0x8A)
    else if c == '‹' then Some(0x8B) else if c == 'Œ' then Some(0x8C)
    else if c == 'Ž' then Some(0x8E) else if c == '‘' then Some(0x91)
    else if c == '’' then Some(0x92) else if c == '“' then Some(0x93)
    else if c == '”' then Some(0x94) else if c == '•' then Some(0x95)
    else if c == '–' then Some(0x96) else if c == '—' then Some(0x97)
    else if c == '˜' then Some(0x98) else if c == '™' then Some(0x99)
    else if c == 'š' then Some(0x9A) else if c == '›' then Some(0x9B)
    else if c == 'œ' then Some(0x9C) else if c == 'ž' then Some(0x9E)
    else if c == 'Ÿ' then Some(0x9F)
    else None
  }

  /** Decoding a byte and encoding the character gives the byte back, so the
      decoding is injective; NUL is the only byte that decodes to '\0'. */
  lemma Cp1252RoundTrip(b: byte)
    ensures Cp1252Byte(Cp1252(b)) == Some(b)
    ensures Cp1252(b) == '\0' <==> b == 0
  {
  }

  lemma Cp1252Injective(a: byte, b: byte)
    ensures Cp1252(a) == Cp1252(b) ==> a == b
  {
    Cp1252RoundTrip(a);
    Cp1252RoundTrip(b);
  }

  /** Encoding.GetString over a byte array. */
  function Decode(bs: seq<byte>): (s: string)
    ensures |s| == |bs|
  {
    if |bs| == 0 then [] else Decode(bs[..|bs| - 1]) + [Cp1252(bs[|bs| - 1])]
  }

  /** Character i of the decoding is the decoding of byte i. */
  lemma {:induction false} DecodeAt(bs: seq<byte>, i: int)
    requires 0 <= i < |bs|
    ensures Decode(bs)[i] == Cp1252(bs[i])
  {
    if i < |bs| - 1 {
      DecodeAt(bs[..|bs| - 1], i);
    }
  }

  /** string.TrimEnd('\0'). */
  function TrimEndNul(s: string): (r: string)
    ensures |r| <= |s| && r == s[..|r|]
    ensures |r| > 0 ==> r[|r| - 1] != '\0'
    ensures forall k :: |r| <= k < |s| ==> s[k] == '\0'
  {
    if |s| > 0 && s[|s| - 1] == '\0' then TrimEndNul(s[..|s| - 1]) else s
  }

  /** The length of a byte string without its trailing zero bytes. */
  function TrimmedLength(bs: seq<byte>): (n: nat)
    ensures n <= |bs|
    ensures n > 0 ==> bs[n - 1] != 0
    ensures forall k :: n <= k < |bs| ==> bs[k] == 0
  {
    if |bs| > 0 && bs[|bs| - 1] == 0 then TrimmedLength(bs[..|bs| - 1]) else |bs|
  }

  /** Character i of the decoded string is NUL exactly when byte i is 0. */
  lemma NulDecodesToNul(bs: seq<byte>, i: int)
    requires 0 <= i < |bs|
    ensures Decode(bs)[i] == '\0' <==> bs[i] == 0
  {
    Cp1252RoundTrip(bs[i]);
  }

  /** Trimming the decoded string equals decoding the trimmed bytes: only
      trailing NUL bytes are lost. */
  lemma {:induction false} DecodeThenTrim(bs: seq<byte>)
    ensures TrimEndNul(Decode(bs)) == Decode(bs[..TrimmedLength(bs)])
  {
    if |bs| == 0 {
      assert bs[..TrimmedLength(bs)] == bs;
    } else {
      var d := Decode(bs);
      NulDecodesToNul(bs, |bs| - 1);
      if bs[|bs| - 1] == 0 {
        var init := bs[..|bs| - 1];
        assert d[..|bs| - 1] == Decode(init);
        DecodeThenTrim(init);
        assert init[..TrimmedLength(init)] == bs[..TrimmedLength(bs)];
      } else {
        assert bs[..TrimmedLength(bs)] == bs;
      }
    }
  }

  /** A NUL-padded field of `width` bytes holding `s` decodes back to `s`. */
  lemma {:induction false} PaddedRoundTrip(bs: seq<byte>, pad: nat)
    requires |bs| == 0 || bs[|bs| - 1] != 0
    ensures TrimEndNul(Decode(bs + seq(pad, _ => 0))) == Decode(bs)
  {
    var padded := bs + seq(pad, _ => 0);
    DecodeThenTrim(padded);
    TrimmedPadding(bs, pad);
    assert padded[..|bs|] == bs;
  }

  lemma {:induction false} TrimmedPadding(bs: seq<byte>, pad: nat)
    requires |bs| == 0 || bs[|bs| - 1] != 0
    ensures TrimmedLength(bs + seq(pad, _ => 0)) == |bs|
  {
    if pad > 0 {
      var padded := bs + seq(pad, _ => 0);
      assert padded[..|padded| - 1] == bs + seq(pad - 1, _ => 0);
      TrimmedPadding(bs, pad - 1);
    } else {
      assert bs + seq(pad, _ => 0) == bs;
    }
  }
}
