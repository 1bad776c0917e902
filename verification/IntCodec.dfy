/** Signed integers of 1 to 6 bytes in a buffer
    (crates/runtime/src/builtin/buffer.js:1419-1439, 1557-1589, 1698-1721 and 1869-1909). */
module IntCodec {
  import opened Utf8

  datatype Error = OutOfRange | BufferOutOfBounds
  datatype Result<T> = Ok(value: T) | Err(error: Error)

  function ValidateOffset(value: int, min: int, max: int): Result<int> {
    if max < min then Err(BufferOutOfBounds) else if value < min || value > max then Err(OutOfRange) else Ok(value)
  }

  /** The checks both directions make; Ok when byteLength and offset address bytes of the buffer. */
  function CheckPlace(length: nat, offset: int, byteLength: int): (r: Result<int>)
    ensures r.Ok? ==> 1 <= byteLength <= 6 && 0 <= offset <= length - byteLength
  {
    var b := ValidateOffset(byteLength, 1, 6);
    if b.Err? then b else ValidateOffset(offset, 0, length - byteLength)
  }

  function Pow256(n: nat): (p: int)
    ensures p > 0
  {
    if n == 0 then 1 else 256 * Pow256(n - 1)
  }

  // ---------------------------------------------------------------------------------------
  // Two's complement, little end first
  // ---------------------------------------------------------------------------------------

  /** The low n bytes of the two's complement of v: floor division peels them off. */
  function Digits(v: int, n: nat): (bs: seq<byte>)
    ensures |bs| == n
    decreases n
  {
    if n == 0 then [] else [v % 256] + Digits(v / 256, n - 1)
  }

  function Unsigned(bs: seq<byte>): (u: int)
    ensures 0 <= u < Pow256(|bs|)
  {
    if bs == [] then 0 else bs[0] + 256 * Unsigned(bs[1..])
  }

  function Signed(bs: seq<byte>): int
    requires bs != []
  {
    var u := Unsigned(bs);
    if u >= Pow256(|bs| - 1) * 0x80 then u - Pow256(|bs|) else u
  }

  function Mirror(bs: seq<byte>): (r: seq<byte>)
    ensures |r| == |bs| && forall i :: 0 <= i < |bs| ==> r[i] == bs[|bs| - 1 - i]
  {
    seq(|bs|, i requires 0 <= i < |bs| => bs[|bs| - 1 - i])
  }

  predicate InRange(v: int, n: nat)
    requires n > 0
  {
    -0x80 * Pow256(n - 1) <= v < 0x80 * Pow256(n - 1)
  }

  lemma {:induction false} DigitsRemainder(v: int, n: nat)
    ensures Unsigned(Digits(v, n)) == v % Pow256(n)
    decreases n
  {
    if n > 0 {
      DigitsRemainder(v / 256, n - 1);
      assert Digits(v, n)[1..] == Digits(v / 256, n - 1);
      ModSplit(v, Pow256(n - 1));
    }
  }

  lemma ModSplit(v: int, p: int)
    requires p > 0
    ensures v % (256 * p) == v % 256 + 256 * (v / 256 % p)
  {
    var q, r := v / 256, v % 256;
    var k, s := q / p, q % p;
    assert v == k * (256 * p) + (256 * s + r) by {
      assert q == k * p + s;
      assert 256 * (k * p) == k * (256 * p);
    }
    assert 0 <= 256 * s + r < 256 * p;
    ModUnique(v, 256 * p, k, 256 * s + r);
  }

  lemma MulAtLeast(a: int, d: int)
    requires a >= 1 && d > 0
    ensures a * d >= d
  {
  }

  lemma MulDiff(a: int, b: int, d: int)
    ensures (a - b) * d == a * d - b * d
  {
  }

  /** Quotient and remainder are determined by v == k * d + r. */
  lemma ModUnique(v: int, d: int, k: int, r: int)
    requires d > 0 && v == k * d + r && 0 <= r < d
    ensures v % d == r && v / d == k
  {
    var q, m := v / d, v % d;
    assert q * d + m == v && 0 <= m < d by { DivMod(v, d); }
    if k > q {
      MulAtLeast(k - q, d);
      MulDiff(k, q, d);
      assert false;
    } else if k < q {
      MulAtLeast(q - k, d);
      MulDiff(q, k, d);
      assert false;
    }
  }

  lemma DivMod(v: int, d: int)
    requires d > 0
    ensures v / d * d + v % d == v && 0 <= v % d < d
  {
  }

  /** Reading back the bytes of an in-range value gives the value. */
  lemma SignedOfDigits(v: int, n: nat)
    requires n > 0 && InRange(v, n)
    ensures Signed(Digits(v, n)) == v
  {
    DigitsRemainder(v, n);
    var p := Pow256(n);
    if v >= 0 {
      ModUnique(v, p, 0, v);
    } else {
      ModUnique(v, p, -1, v + p);
    }
  }

  /** Every byte sequence is the encoding of the value read from it. */
  lemma {:induction false} DigitsOfUnsigned(bs: seq<byte>, k: int)
    ensures Digits(Unsigned(bs) + k * Pow256(|bs|), |bs|) == bs
    decreases |bs|
  {
    hide Pow256;
    if bs != [] {
      var u, p := Unsigned(bs[1..]), Pow256(|bs| - 1);
      PowStep(|bs|);
      LowDigit(k, p, u, bs[0]);
      DigitsOfUnsigned(bs[1..], k);
    }
  }

  lemma LowDigit(k: int, p: int, u: int, b: byte)
    ensures (b + 256 * u + k * (256 * p)) / 256 == u + k * p && (b + 256 * u + k * (256 * p)) % 256 == b
  {
    assert k * (256 * p) == 256 * (k * p);
    var low: int := b;
    ModUnique(b + 256 * u + k * (256 * p), 256, u + k * p, low);
  }

  lemma DigitsOfSigned(bs: seq<byte>)
    requires bs != []
    ensures Digits(Signed(bs), |bs|) == bs && InRange(Signed(bs), |bs|)
  {
    hide Digits, Unsigned, Pow256;
    PowStep(|bs|);
    if Unsigned(bs) >= Pow256(|bs| - 1) * 0x80 {
      DigitsOfUnsigned(bs, -1);
    } else {
      DigitsOfUnsigned(bs, 0);
    }
  }

  lemma PowStep(n: nat)
    requires n > 0
    ensures Pow256(n) == 256 * Pow256(n - 1)
  {
  }

  // ---------------------------------------------------------------------------------------
  // The latched borrow
  // ---------------------------------------------------------------------------------------

  /** JavaScript's ToInt32 of value / mul: truncation toward zero, then 32-bit wrap-around. */
  function ToInt32(x: int): int {
    (x + 0x8000_0000) % 0x1_0000_0000 - 0x8000_0000
  }

  function Truncated(value: int, mul: int): int
    requires mul > 0
  {
    if value >= 0 then value / mul else -((-value) / mul)
  }

  /** The byte the source stores: truncation less the borrow, low eight bits. */
  function StoredByte(value: int, mul: int, sub: int): byte
    requires mul > 0
  {
    (ToInt32(Truncated(value, mul)) - sub) % 256
  }

  /** Truncating division with the borrow is floor division, and the wrap-around is harmless. */
  lemma BorrowIsFloor(value: int, mul: int)
    requires mul > 0
    ensures StoredByte(value, mul, if value < 0 && value % mul != 0 then 1 else 0) == value / mul % 256
  {
    var sub := if value < 0 && value % mul != 0 then 1 else 0;
    TruncatedLessBorrow(value, mul);
    Wraps(Truncated(value, mul), sub);
  }

  lemma TruncatedLessBorrow(value: int, mul: int)
    requires mul > 0
    ensures Truncated(value, mul) - (if value < 0 && value % mul != 0 then 1 else 0) == value / mul
  {
    var q, r := value / mul, value % mul;
    DivMod(value, mul);
    if value < 0 {
      MulNeg(q, mul);
      if r == 0 {
        ModUnique(-value, mul, -q, 0);
      } else {
        ModUnique(-value, mul, -q - 1, mul - r);
      }
    }
  }

  lemma MulNeg(q: int, d: int)
    ensures (-q) * d == -(q * d) && (-q - 1) * d == -(q * d) - d
  {
  }

  /** Subtracting before or after the 32-bit wrap-around leaves the low byte the same. */
  lemma Wraps(x: int, sub: int)
    ensures (ToInt32(x) - sub) % 256 == (x - sub) % 256
  {
    var q := (x + 0x8000_0000) / 0x1_0000_0000;
    ModUnique(x - sub - q * 0x1_0000_0000, 256, (x - sub) / 256 - q * 0x100_0000, (x - sub) % 256);
  }

  // ---------------------------------------------------------------------------------------
  // Digits one by one
  // ---------------------------------------------------------------------------------------

  lemma DivDiv(v: int, p: int)
    requires p > 0
    ensures v / 256 / p == v / (256 * p)
  {
    var q, r := v / 256, v % 256;
    DivMod(q, p);
    var k, s := q / p, q % p;
    assert k * (256 * p) == 256 * (k * p);
    ModUnique(v, 256 * p, k, 256 * s + r);
  }

  lemma {:induction false} DigitAt(v: int, n: nat, i: nat)
    requires i < n
    ensures Digits(v, n)[i] == v / Pow256(i) % 256
    decreases n
  {
    if i > 0 {
      DigitAt(v / 256, n - 1, i - 1);
      DivDiv(v, Pow256(i - 1));
    }
  }

  /** The borrow is latched once some lower byte is not zero: once the value is not divisible. */
  lemma {:induction false} LowDigitsZero(v: int, i: nat)
    ensures v % Pow256(i + 1) == 0 <==> v % Pow256(i) == 0 && v / Pow256(i) % 256 == 0
  {
    var p := Pow256(i);
    DivMod(v, p);
    var q, r := v / p, v % p;
    DivMod(q, 256);
    assert q / 256 * (256 * p) == q / 256 * 256 * p;
    assert (q / 256 * 256 + q % 256) * p == q / 256 * 256 * p + q % 256 * p;
    assert q % 256 * p + r < 256 * p by {
      assert q % 256 <= 255;
      assert q % 256 * p <= 255 * p;
    }
    assert q % 256 * p >= 0;
    ModUnique(v, 256 * p, q / 256, q % 256 * p + r);
    if q % 256 >= 1 {
      MulAtLeast(q % 256, p);
    }
  }

  /** The borrow in force when byte i is written. */
  function Borrow(value: int, i: nat): int {
    if value < 0 && value % Pow256(i) != 0 then 1 else 0
  }

  /** One round of the write loops: latch the borrow, store the byte. */
  lemma LatchAndStore(value: int, i: nat, previous: byte)
    requires i > 0 && previous == value / Pow256(i - 1) % 256
    ensures Borrow(value, i) ==
            if value < 0 && Borrow(value, i - 1) == 0 && previous != 0 then 1 else Borrow(value, i - 1)
    ensures StoredByte(value, Pow256(i), Borrow(value, i)) == value / Pow256(i) % 256
  {
    LowDigitsZero(value, i - 1);
    BorrowIsFloor(value, Pow256(i));
  }

  /** The same round in terms of the digits to be written. */
  lemma StoreDigit(value: int, n: nat, i: nat, sub: int)
    requires 0 < i < n && sub == Borrow(value, i - 1)
    ensures Borrow(value, i) == if value < 0 && sub == 0 && Digits(value, n)[i - 1] != 0 then 1 else sub
    ensures StoredByte(value, Pow256(i), Borrow(value, i)) == Digits(value, n)[i]
    ensures Pow256(i) == Pow256(i - 1) * 0x100
  {
    hide StoredByte, Borrow, Digits;
    DigitAt(value, n, i - 1);
    DigitAt(value, n, i);
    LatchAndStore(value, i, Digits(value, n)[i - 1]);
  }

  lemma FirstDigit(value: int, n: nat)
    requires n > 0
    ensures Digits(value, n)[0] == value % 256 && Borrow(value, 0) == 0 && Pow256(0) == 1
  {
  }

  lemma {:induction false} UnsignedSnoc(bs: seq<byte>, b: byte)
    ensures Unsigned(bs + [b]) == Unsigned(bs) + b * Pow256(|bs|)
  {
    if bs != [] {
      UnsignedSnoc(bs[1..], b);
      assert (bs + [b])[1..] == bs[1..] + [b];
      assert b * (256 * Pow256(|bs| - 1)) == 256 * (b * Pow256(|bs| - 1));
    }
  }

  // ---------------------------------------------------------------------------------------
  // The buffer methods
  // ---------------------------------------------------------------------------------------

  function CheckWrite(length: nat, value: int, offset: int, byteLength: int): (r: Result<int>)
    ensures r.Ok? ==>
              && CheckPlace(length, offset, byteLength).Ok? && InRange(value, byteLength)
              && r.value == offset + byteLength
  {
    var place := CheckPlace(length, offset, byteLength);
    if place.Err? then place
    else if !InRange(value, byteLength) then Err(OutOfRange)
    else Ok(offset + byteLength)
  }

  /** The buffer with `bs` written at `offset`. */
  function Patched(buf: seq<byte>, offset: nat, bs: seq<byte>): seq<byte>
    requires offset + |bs| <= |buf|
  {
    buf[..offset] + bs + buf[offset + |bs|..]
  }

  method WriteIntLE(buf: array<byte>, value: int, offset: int, byteLength: int) returns (r: Result<int>)
    modifies buf
    ensures r == CheckWrite(buf.Length, value, offset, byteLength)
    ensures r.Ok? ==> buf[..] == Patched(old(buf[..]), offset, Digits(value, byteLength))
    ensures r.Err? ==> buf[..] == old(buf[..])
  {
    r := CheckWrite(buf.Length, value, offset, byteLength);
    if r.Err? { return; }
    hide Digits, Borrow, StoredByte, Pow256;
    ghost var digits := Digits(value, byteLength);
    FirstDigit(value, byteLength);
    var i := 1;
    var mul: int := 1;
    var sub := 0;
    buf[offset] := value % 256;
    while i < byteLength
      invariant 1 <= i <= byteLength && mul == Pow256(i - 1) && sub == Borrow(value, i - 1)
      invariant forall j :: 0 <= j < buf.Length ==>
        buf[j] == if offset <= j < offset + i then digits[j - offset] else old(buf[j])
    {
      StoreDigit(value, byteLength, i, sub);
      mul := mul * 0x100;
      if value < 0 && sub == 0 && buf[offset + i - 1] != 0 {
        sub := 1;
      }
      buf[offset + i] := StoredByte(value, mul, sub);
      i := i + 1;
    }
  }

  method WriteIntBE(buf: array<byte>, value: int, offset: int, byteLength: int) returns (r: Result<int>)
    modifies buf
    ensures r == CheckWrite(buf.Length, value, offset, byteLength)
    ensures r.Ok? ==> buf[..] == Patched(old(buf[..]), offset, Mirror(Digits(value, byteLength)))
    ensures r.Err? ==> buf[..] == old(buf[..])
  {
    r := CheckWrite(buf.Length, value, offset, byteLength);
    if r.Err? { return; }
    hide Digits, Borrow, StoredByte, Pow256;
    ghost var digits, before := Digits(value, byteLength), buf[..];
    FirstDigit(value, byteLength);
    var i := byteLength - 1;
    var mul: int := 1;
    var sub := 0;
    buf[offset + i] := value % 256;
    i := i - 1;
    while i >= 0
      invariant -1 <= i <= byteLength - 2 && mul == Pow256(byteLength - 2 - i)
                && sub == Borrow(value, byteLength - 2 - i)
      invariant WrittenBack(before, buf[..], offset, byteLength, digits, byteLength - 1 - i)
    {
      StoreDigit(value, byteLength, byteLength - 1 - i, sub);
      mul := mul * 0x100;
      if value < 0 && sub == 0 && buf[offset + i + 1] != 0 {
        sub := 1;
      }
      buf[offset + i] := StoredByte(value, mul, sub);
      i := i - 1;
    }
    AllWrittenBack(before, buf[..], offset, byteLength, digits);
  }

  /** The first `n` digits stand at the end of the place, the rest of the buffer is as before. */
  ghost predicate WrittenBack(before: seq<byte>, after: seq<byte>, offset: nat, byteLength: nat, digits: seq<byte>,
      n: nat)
    requires n <= byteLength == |digits|
  {
    && |after| == |before|
    && (forall j :: 0 <= j < |after| ==>
          after[j] == if offset + byteLength - n <= j < offset + byteLength then digits[offset + byteLength - 1 - j]
              else before[j])
  }

  lemma AllWrittenBack(before: seq<byte>, after: seq<byte>, offset: nat, byteLength: nat, digits: seq<byte>)
    requires offset + byteLength <= |before| && byteLength == |digits|
    requires WrittenBack(before, after, offset, byteLength, digits, byteLength)
    ensures after == Patched(before, offset, Mirror(digits))
  {
  }

  method ReadIntLE(buf: array<byte>, offset: int, byteLength: int) returns (r: Result<int>)
    ensures CheckPlace(buf.Length, offset, byteLength).Err? ==> r == CheckPlace(buf.Length, offset, byteLength)
    ensures CheckPlace(buf.Length, offset, byteLength).Ok? ==> r == Ok(Signed(buf[offset..offset + byteLength]))
  {
    r := CheckPlace(buf.Length, offset, byteLength);
    if r.Err? { return; }
    var val: int := buf[offset];
    var mul: int := 1;
    var i := 1;
    UnsignedSnoc([], buf[offset]);
    assert buf[offset..offset + 1] == [] + [buf[offset]];
    while i < byteLength
      invariant 1 <= i <= byteLength && mul == Pow256(i - 1) && val == Unsigned(buf[offset..offset + i])
    {
      mul := mul * 0x100;
      UnsignedSnoc(buf[offset..offset + i], buf[offset + i]);
      assert buf[offset..offset + i + 1] == buf[offset..offset + i] + [buf[offset + i]];
      val := val + buf[offset + i] * mul;
      i := i + 1;
    }
    mul := mul * 0x80;
    if val >= mul { val := val - Pow256(byteLength); }
    r := Ok(val);
  }

  /** Byte k is the next more significant one of the bytes read backwards from `end`. */
  lemma ReadStep(all: seq<byte>, k: nat, end: nat)
    requires k < end <= |all|
    ensures Unsigned(Mirror(all[k..end])) == Unsigned(Mirror(all[k + 1..end])) + all[k] * Pow256(end - k - 1)
    ensures k + 1 == end ==> Unsigned(Mirror(all[k..end])) == all[k]
  {
    UnsignedSnoc(Mirror(all[k + 1..end]), all[k]);
    assert Mirror(all[k..end]) == Mirror(all[k + 1..end]) + [all[k]];
    if k + 1 == end { assert Mirror(all[k + 1..end]) == []; }
  }

  method ReadIntBE(buf: array<byte>, offset: int, byteLength: int) returns (r: Result<int>)
    ensures CheckPlace(buf.Length, offset, byteLength).Err? ==> r == CheckPlace(buf.Length, offset, byteLength)
    ensures CheckPlace(buf.Length, offset, byteLength).Ok? ==> r == Ok(Signed(Mirror(buf[offset..offset + byteLength])))
  {
    r := CheckPlace(buf.Length, offset, byteLength);
    if r.Err? { return; }
    hide Unsigned, Mirror;
    ghost var all, end := buf[..], offset + byteLength;
    var i := byteLength - 1;
    var mul: int := 1;
    var val: int := buf[offset + i];
    ReadStep(all, offset + i, end);
    while i > 0
      invariant 0 <= i < byteLength && mul == Pow256(byteLength - 1 - i)
                && val == Unsigned(Mirror(all[offset + i..end]))
    {
      mul := mul * 0x100;
      i := i - 1;
      ReadStep(all, offset + i, end);
      val := val + buf[offset + i] * mul;
    }
    assert all[offset..end] == buf[offset..end];
    mul := mul * 0x80;
    if val >= mul { val := val - Pow256(byteLength); }
    r := Ok(val);
  }

  /** Writing and reading at the same place return the value, in both byte orders, and only the
      addressed bytes change. */
  method RoundTrip(buf: array<byte>, value: int, offset: int, byteLength: int, littleEndian: bool)
      returns (r: Result<int>)
    modifies buf
    ensures r == if CheckWrite(buf.Length, value, offset, byteLength).Ok? then Ok(value)
                 else Err(CheckWrite(buf.Length, value, offset, byteLength).error)
    ensures forall j :: 0 <= j < buf.Length && !(offset <= j < offset + byteLength) ==> buf[j] == old(buf[j])
  {
    hide Digits, CheckWrite, CheckPlace, Signed, Mirror, Patched, InRange;
    ghost var before := buf[..];
    if littleEndian {
      r := WriteIntLE(buf, value, offset, byteLength);
    } else {
      r := WriteIntBE(buf, value, offset, byteLength);
    }
    if r.Err? {
      assert forall j :: 0 <= j < buf.Length ==> buf[..][j] == before[j];
      return;
    }
    SignedOfDigits(value, byteLength);
    ghost var digits := Digits(value, byteLength);
    PatchedAt(before, offset, if littleEndian then digits else Mirror(digits), buf[..]);
    MirrorTwice(Digits(value, byteLength));
    assert forall j :: 0 <= j < buf.Length ==> buf[..][j] == buf[j];
    assert buf[..][offset..offset + byteLength] == buf[offset..offset + byteLength];
    if littleEndian {
      r := ReadIntLE(buf, offset, byteLength);
    } else {
      r := ReadIntBE(buf, offset, byteLength);
    }
  }

  lemma PatchedAt(before: seq<byte>, offset: nat, bs: seq<byte>, after: seq<byte>)
    requires offset + |bs| <= |before| && after == Patched(before, offset, bs)
    ensures |after| == |before| && after[offset..offset + |bs|] == bs
    ensures forall j :: 0 <= j < |after| && !(offset <= j < offset + |bs|) ==> after[j] == before[j]
  {
  }

  lemma MirrorTwice(bs: seq<byte>)
    ensures Mirror(Mirror(bs)) == bs
  {
  }
}
