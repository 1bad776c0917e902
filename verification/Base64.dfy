/** Base64: the chunked encoder and the decoder of base64-js, the cleaning and URL-safe forms of the
    buffer module, and the native btoa / atob
    (crates/runtime/src/builtin/base64.js:5-148, buffer.js:2226-2256 and 2363-2365,
    base64.rs:10-109). Characters are represented by their codes. */
module Base64 {
  import opened Options
  import opened Utf8

  type Text = seq<nat>

  datatype Result<T> = Ok(value: T) | InvalidLength | RangeError

  const EQ: nat := '=' as int

  // ---------------------------------------------------------------------------------------
  // Reference: sections 4 and 5 of RFC 4648
  // ---------------------------------------------------------------------------------------

  function Letter(i: int): nat
    requires 0 <= i < 64
  {
    if i < 26 then 65 + i
    else if i < 52 then 97 + i - 26
    else if i < 62 then 48 + i - 52
    else if i == 62 then 43 else 47
  }

  /** The value of a letter of either alphabet; any other character counts as 0. */
  function Value(c: nat): (v: int)
    ensures 0 <= v < 64
  {
    if 65 <= c <= 90 then c - 65 else if 97 <= c <= 122 then c - 97 + 26 else if 48 <= c <= 57 then c - 48 + 52
    else if c == 43 || c == 45 then 62 else if c == 47 || c == 95 then 63 else 0
  }

  predicate InAlphabets(c: nat) {
    65 <= c <= 90 || 97 <= c <= 122 || 48 <= c <= 57 || c == 43 || c == 45 || c == 47 || c == 95
  }

  lemma LetterValue(i: int)
    requires 0 <= i < 64
    ensures Value(Letter(i)) == i && Letter(i) != EQ && InAlphabets(Letter(i)) && Letter(i) < 128
  {
  }

  function Group(b0: byte, b1: byte, b2: byte): (g: Text)
    ensures |g| == 4
  {
    [Letter(b0 / 4), Letter(b0 % 4 * 16 + b1 / 16), Letter(b1 % 16 * 4 + b2 / 64), Letter(b2 % 64)]
  }

  /** The letters of the encoding, without padding. */
  function Digits(bs: seq<byte>): Text {
    if |bs| == 0 then []
    else if |bs| == 1 then Group(bs[0], 0, 0)[..2]
    else if |bs| == 2 then Group(bs[0], bs[1], 0)[..3]
    else Group(bs[0], bs[1], bs[2]) + Digits(bs[3..])
  }

  function Padding(length: nat): Text {
    if length % 3 == 1 then [EQ, EQ] else if length % 3 == 2 then [EQ] else []
  }

  function Encode(bs: seq<byte>): Text {
    Digits(bs) + Padding(|bs|)
  }

  function Ungroup(v0: int, v1: int, v2: int, v3: int): (bs: seq<byte>)
    requires 0 <= v0 < 64 && 0 <= v1 < 64 && 0 <= v2 < 64 && 0 <= v3 < 64
    ensures |bs| == 3
  {
    [v0 * 4 + v1 / 16, v1 % 16 * 16 + v2 / 4, v2 % 4 * 64 + v3]
  }

  /** The bytes of unpadded letters; a lone last letter has none. */
  function DecodeDigits(t: Text): seq<byte> {
    if |t| < 2 then []
    else if |t| == 2 then Ungroup(Value(t[0]), Value(t[1]), 0, 0)[..1]
    else if |t| == 3 then Ungroup(Value(t[0]), Value(t[1]), Value(t[2]), 0)[..2]
    else Ungroup(Value(t[0]), Value(t[1]), Value(t[2]), Value(t[3])) + DecodeDigits(t[4..])
  }

  lemma UngroupGroup(b0: byte, b1: byte, b2: byte)
    ensures var g := Group(b0, b1, b2);
            Ungroup(Value(g[0]), Value(g[1]), Value(g[2]), Value(g[3])) == [b0, b1, b2]
  {
    hide Letter, Value, InAlphabets, Ungroup;
    LetterValue(b0 / 4);
    LetterValue(b0 % 4 * 16 + b1 / 16);
    LetterValue(b1 % 16 * 4 + b2 / 64);
    LetterValue(b2 % 64);
    Regroup(b0 / 4, b0 % 4, b1 / 16, b1 % 16, b2 / 64, b2 % 64);
  }

  /** Letters of the standard alphabet, none of them the padding character. */
  predicate Plain(t: Text) {
    forall i :: 0 <= i < |t| ==> InAlphabets(t[i]) && t[i] != EQ && t[i] < 128
  }

  lemma GroupIsPlain(b0: byte, b1: byte, b2: byte)
    ensures Plain(Group(b0, b1, b2))
  {
    hide Letter, Value, InAlphabets;
    LetterValue(b0 / 4);
    LetterValue(b0 % 4 * 16 + b1 / 16);
    LetterValue(b1 % 16 * 4 + b2 / 64);
    LetterValue(b2 % 64);
  }

  lemma Regroup(a: nat, b: nat, c: nat, d: nat, e: nat, f: nat)
    requires a < 64 && b < 4 && c < 16 && d < 16 && e < 4 && f < 64
    ensures Ungroup(a, b * 16 + c, d * 4 + e, f) == [a * 4 + b, c * 16 + d, e * 64 + f]
  {
    assert (b * 16 + c) / 16 == b && (b * 16 + c) % 16 == c;
    assert (d * 4 + e) / 4 == d && (d * 4 + e) % 4 == e;
  }

  lemma ShortUngroup(v0: int, v1: int, v2: int, v3: int)
    requires 0 <= v0 < 64 && 0 <= v1 < 64 && 0 <= v2 < 64 && 0 <= v3 < 64
    ensures Ungroup(v0, v1, v2, v3)[..1] == Ungroup(v0, v1, 0, 0)[..1]
    ensures Ungroup(v0, v1, v2, v3)[..2] == Ungroup(v0, v1, v2, 0)[..2]
  {
  }

  /** Decoding undoes encoding. */
  lemma {:induction false} DecodeOfDigits(bs: seq<byte>)
    ensures DecodeDigits(Digits(bs)) == bs
    decreases |bs|
  {
    hide Group, Ungroup, Value;
    if |bs| == 1 {
      var g := Group(bs[0], 0, 0);
      UngroupGroup(bs[0], 0, 0);
      ShortUngroup(Value(g[0]), Value(g[1]), Value(g[2]), Value(g[3]));
    } else if |bs| == 2 {
      var g := Group(bs[0], bs[1], 0);
      UngroupGroup(bs[0], bs[1], 0);
      ShortUngroup(Value(g[0]), Value(g[1]), Value(g[2]), Value(g[3]));
    } else if |bs| >= 3 {
      UngroupGroup(bs[0], bs[1], bs[2]);
      DecodeOfDigits(bs[3..]);
      assert Digits(bs)[4..] == Digits(bs[3..]);
    }
  }

  lemma {:induction false} DigitsShape(bs: seq<byte>)
    ensures |Digits(bs)| == |bs| / 3 * 4 + (if |bs| % 3 == 0 then 0 else |bs| % 3 + 1)
    ensures Plain(Digits(bs))
    decreases |bs|
  {
    hide Group, InAlphabets;
    if |bs| == 1 {
      GroupIsPlain(bs[0], 0, 0);
    } else if |bs| == 2 {
      GroupIsPlain(bs[0], bs[1], 0);
    } else if |bs| >= 3 {
      GroupIsPlain(bs[0], bs[1], bs[2]);
      DigitsShape(bs[3..]);
    }
  }

  lemma {:induction false} DigitsConcat(a: seq<byte>, b: seq<byte>)
    requires |a| % 3 == 0
    ensures Digits(a + b) == Digits(a) + Digits(b)
    decreases |a|
  {
    hide Group;
    if a == [] {
      assert a + b == b;
    } else {
      DigitsConcat(a[3..], b);
      assert (a + b)[3..] == a[3..] + b;
    }
  }

  // ---------------------------------------------------------------------------------------
  // base64-js: encoding
  // ---------------------------------------------------------------------------------------

  function TripletToBase64(num: nat): Text {
    [Letter(num / 262144 % 64), Letter(num / 4096 % 64), Letter(num / 64 % 64), Letter(num % 64)]
  }

  /** The 24-bit number of three bytes. */
  function Number(b0: int, b1: int, b2: int): int {
    b0 * 65536 + b1 * 256 + b2
  }

  lemma SixBitDigits(num: nat, a: nat, b: nat, c: nat, d: nat)
    requires num == a * 262144 + b * 4096 + c * 64 + d && b < 64 && c < 64 && d < 64
    ensures num / 262144 == a && num / 4096 % 64 == b && num / 64 % 64 == c && num % 64 == d
  {
    assert num / 4096 == a * 64 + b;
    assert num / 64 == (a * 64 + b) * 64 + c;
  }

  lemma TripletIsGroup(b0: byte, b1: byte, b2: byte)
    ensures Number(b0, b1, b2) >= 0 && TripletToBase64(Number(b0, b1, b2)) == Group(b0, b1, b2)
  {
    hide Letter, Number, TripletToBase64;
    Regrouped(b0 / 4, b0 % 4, b1 / 16, b1 % 16, b2 / 64, b2 % 64);
  }

  lemma Regrouped(p: nat, q: nat, r: nat, s: nat, t: nat, u: nat)
    requires p < 64 && q < 4 && r < 16 && s < 16 && t < 4 && u < 64
    ensures var n := Number(p * 4 + q, r * 16 + s, t * 64 + u);
            n >= 0 && TripletToBase64(n) == [Letter(p), Letter(q * 16 + r), Letter(s * 4 + t), Letter(u)]
  {
    hide Letter, TripletToBase64;
    TripletOf(Number(p * 4 + q, r * 16 + s, t * 64 + u), p, q * 16 + r, s * 4 + t, u);
  }

  lemma TripletOf(num: nat, a: nat, b: nat, c: nat, d: nat)
    requires num == a * 262144 + b * 4096 + c * 64 + d && a < 64 && b < 64 && c < 64 && d < 64
    ensures TripletToBase64(num) == [Letter(a), Letter(b), Letter(c), Letter(d)]
  {
    hide Letter;
    SixBitDigits(num, a, b, c, d);
  }

  method EncodeChunk(uint8: seq<byte>, start: nat, end: nat) returns (output: Text)
    requires start <= end <= |uint8| && (end - start) % 3 == 0
    ensures output == Digits(uint8[start..end])
  {
    hide Group, TripletToBase64, Number, Digits;
    NoDigits();
    output := [];
    var i := start;
    assert uint8[start..start] == [];
    while i < end
      invariant start <= i <= end && (i - start) % 3 == 0 && output == Digits(uint8[start..i])
    {
      var tmp := Number(uint8[i], uint8[i + 1], uint8[i + 2]);
      TripletIsGroup(uint8[i], uint8[i + 1], uint8[i + 2]);
      DigitsConcat(uint8[start..i], uint8[i..i + 3]);
      assert uint8[start..i] + uint8[i..i + 3] == uint8[start..i + 3];
      OneGroup(uint8[i..i + 3]);
      output := output + TripletToBase64(tmp);
      i := i + 3;
    }
  }

  lemma OneGroup(bs: seq<byte>)
    requires |bs| == 3
    ensures Digits(bs) == Group(bs[0], bs[1], bs[2])
  {
    assert bs[3..] == [];
  }

  const MAX_CHUNK_LENGTH: nat := 16383

  method FromByteArray(uint8: seq<byte>) returns (text: Text)
    ensures text == Encode(uint8)
  {
    hide Digits;
    var len := |uint8|;
    var extraBytes := len % 3;
    var len2 := len - extraBytes;
    text := [];
    var i := 0;
    NoDigits();
    assert uint8[..0] == [];
    while i < len2
      invariant 0 <= i && i % 3 == 0 && text == Digits(uint8[..if i < len2 then i else len2])
    {
      var end := if i + MAX_CHUNK_LENGTH > len2 then len2 else i + MAX_CHUNK_LENGTH;
      var part := EncodeChunk(uint8, i, end);
      DigitsConcat(uint8[..i], uint8[i..end]);
      assert uint8[..i] + uint8[i..end] == uint8[..end];
      text := text + part;
      i := i + MAX_CHUNK_LENGTH;
    }
    DigitsConcat(uint8[..len2], uint8[len2..]);
    assert uint8[..len2] + uint8[len2..] == uint8;
    var last := EncodeLastGroup(uint8[len2..]);
    text := text + last;
  }

  /** The last one or two bytes, padded; nothing when there are none. */
  method EncodeLastGroup(bytes: seq<byte>) returns (text: Text)
    requires |bytes| < 3
    ensures text == Digits(bytes) + Padding(|bytes|)
  {
    hide Digits, Letter, Number;
    LastDigits(bytes);
    if |bytes| == 1 {
      var tmp := Number(0, 0, bytes[0]);
      text := [Letter(tmp / 4), Letter(tmp * 16 % 64), EQ, EQ];
    } else if |bytes| == 2 {
      var tmp := Number(0, bytes[0], bytes[1]);
      text := [Letter(tmp / 1024), Letter(tmp / 16 % 64), Letter(tmp * 4 % 64), EQ];
    } else {
      text := [];
    }
  }

  lemma NoDigits()
    ensures Digits([]) == []
  {
  }

  lemma LastDigits(bs: seq<byte>)
    requires |bs| < 3
    ensures |bs| == 0 ==> Digits(bs) == []
    ensures |bs| == 1 ==> var tmp := Number(0, 0, bs[0]);
                          0 <= tmp / 4 < 64 && Digits(bs) == [Letter(tmp / 4), Letter(tmp * 16 % 64)]
    ensures |bs| == 2 ==> var tmp := Number(0, bs[0], bs[1]);
                          && 0 <= tmp / 1024 < 64
                          && Digits(bs) == [Letter(tmp / 1024), Letter(tmp / 16 % 64), Letter(tmp * 4 % 64)]
  {
    hide Letter, Group;
    if |bs| == 1 {
      LastOne(bs[0]);
    } else if |bs| == 2 {
      LastTwo(bs[0], bs[1]);
    }
  }

  lemma LastOne(b: byte)
    ensures var tmp := Number(0, 0, b);
            0 <= tmp / 4 < 64 && Group(b, 0, 0)[..2] == [Letter(tmp / 4), Letter(tmp * 16 % 64)]
  {
    hide Letter;
    SixteenTimes(b);
  }

  lemma LastTwo(b0: byte, b1: byte)
    ensures var tmp := Number(0, b0, b1);
            && 0 <= tmp / 1024 < 64
            && Group(b0, b1, 0)[..3] == [Letter(tmp / 1024), Letter(tmp / 16 % 64), Letter(tmp * 4 % 64)]
  {
    hide Letter;
    var tmp := Number(0, b0, b1);
    TopDigits(tmp, b0 / 4, b0 % 4 * 16 + b1 / 16, b1 % 16);
  }

  lemma TopDigits(num: nat, a: nat, b: nat, c: nat)
    requires num == a * 1024 + b * 16 + c && b < 64 && c < 16
    ensures num / 1024 == a && num / 16 % 64 == b && num * 4 % 64 == c * 4
  {
    assert num / 16 == a * 64 + b;
    assert num * 4 == (a * 64 + b) * 64 + c * 4;
  }

  lemma SixteenTimes(b: nat)
    ensures b * 16 % 64 == b % 4 * 16
  {
    LowSextet(b / 4, b % 4);
  }

  lemma LowSextet(q: nat, r: nat)
    requires r < 4
    ensures (q * 4 + r) * 16 % 64 == r * 16
  {
    assert (q * 4 + r) * 16 == q * 64 + r * 16;
  }

  // ---------------------------------------------------------------------------------------
  // base64-js: decoding
  // ---------------------------------------------------------------------------------------

  function FirstEq(t: Text): (n: nat)
    ensures n <= |t| && (n < |t| ==> t[n] == EQ) && forall i :: 0 <= i < n ==> t[i] != EQ
  {
    if t == [] || t[0] == EQ then 0 else 1 + FirstEq(t[1..])
  }

  lemma {:induction false} DecodeConcat(a: Text, b: Text)
    requires |a| % 4 == 0
    ensures DecodeDigits(a + b) == DecodeDigits(a) + DecodeDigits(b)
    decreases |a|
  {
    hide Ungroup, Value;
    if a == [] {
      assert a + b == b;
    } else {
      DecodeConcat(a[4..], b);
      assert (a + b)[4..] == a[4..] + b;
    }
  }

  lemma {:induction false} DecodedLength(t: Text)
    ensures |DecodeDigits(t)| == |t| / 4 * 3 + if |t| % 4 < 2 then 0 else |t| % 4 - 1
    decreases |t|
  {
    hide Ungroup, Value;
    if |t| >= 4 { DecodedLength(t[4..]); }
  }

  /** The 24-bit number of four sextets. */
  function Sextets(v0: int, v1: int, v2: int, v3: int): int {
    v0 * 262144 + v1 * 4096 + v2 * 64 + v3
  }

  function NumberBytes(num: nat): (bs: seq<byte>)
    ensures |bs| == 3
  {
    [num / 65536 % 256, num / 256 % 256, num % 256]
  }

  lemma SextetsAreBytes(v0: nat, v1: nat, v2: nat, v3: nat)
    requires v0 < 64 && v1 < 64 && v2 < 64 && v3 < 64
    ensures Sextets(v0, v1, v2, v3) >= 0 && NumberBytes(Sextets(v0, v1, v2, v3)) == Ungroup(v0, v1, v2, v3)
  {
    EightBitDigits(Sextets(v0, v1, v2, v3), v0 * 4 + v1 / 16, v1 % 16 * 16 + v2 / 4, v2 % 4 * 64 + v3);
  }

  lemma EightBitDigits(num: nat, a: nat, b: nat, c: nat)
    requires num == a * 65536 + b * 256 + c && a < 256 && b < 256 && c < 256
    ensures num / 65536 % 256 == a && num / 256 % 256 == b && num % 256 == c
  {
    assert num / 256 == a * 256 + b;
  }

  /** The result array is filled exactly: there is no padding, or it starts inside a group. */
  predicate FillsExactly(b64: Text) {
    FirstEq(b64) == |b64| || FirstEq(b64) % 4 != 0
  }

  /** The decoder returns the bytes of the letters before the padding and fills its array exactly;
      when padding starts on a group boundary it instead loses the last group, leaves two array
      elements at 0 unwritten, or has no array to allocate at all. */
  method ToByteArray(b64: Text) returns (r: Result<seq<byte>>, filled: nat)
    ensures |b64| % 4 != 0 <==> r == InvalidLength
    ensures |b64| % 4 == 0 && FillsExactly(b64) ==>
              r == Ok(DecodeDigits(b64[..FirstEq(b64)])) && filled == |r.value|
    ensures |b64| % 4 == 0 && !FillsExactly(b64) ==>
              if FirstEq(b64) == 0 then r == RangeError
              else r == Ok(DecodeDigits(b64[..FirstEq(b64) - 4]) + [0, 0]) && filled == |r.value| - 2
  {
    hide DecodeDigits, Ungroup, Value;
    filled := 0;
    if |b64| % 4 > 0 { return InvalidLength, 0; }
    var validLen: int := FirstEq(b64);
    var placeHoldersLen: int := if validLen == |b64| then 0 else 4 - validLen % 4;
    var byteLength: int := (validLen + placeHoldersLen) * 3 / 4 - placeHoldersLen;
    if byteLength < 0 { return RangeError, 0; }
    var arr := new byte[byteLength](_ => 0);
    var len: int := if placeHoldersLen > 0 then validLen - 4 else validLen;
    ghost var g := validLen / 4;
    ByteLength(validLen, placeHoldersLen);
    var curByte, i, q := FillGroups(b64, len, arr, if placeHoldersLen == 4 then g - 1 else g);
    assert q == if placeHoldersLen == 4 then g - 1 else g;
    curByte := FillLast(b64, placeHoldersLen, arr, curByte, i);
    if placeHoldersLen == 4 {
      assert arr[..] == arr[..curByte] + [0, 0];
    } else {
      assert curByte == byteLength && arr[..] == arr[..curByte];
    }
    r, filled := Ok(arr[..]), curByte;
  }

  /** The branches for a last group of two or three letters; a lone letter has no byte. */
  method FillLast(b64: Text, placeHoldersLen: int, arr: array<byte>, at: nat, i: nat) returns (curByte: nat)
    requires i % 4 == 0 && i <= |b64| && at <= arr.Length && arr[..at] == DecodeDigits(b64[..i])
    requires 1 <= placeHoldersLen <= 3 ==> i + 4 - placeHoldersLen <= |b64| && at + 3 - placeHoldersLen <= arr.Length
    modifies arr
    ensures if 1 <= placeHoldersLen <= 3
            then curByte == at + 3 - placeHoldersLen && arr[..curByte] == DecodeDigits(b64[..i + 4 - placeHoldersLen])
            else curByte == at && arr[..] == old(arr[..])
  {
    hide DecodeDigits, Value;
    curByte := at;
    if placeHoldersLen == 2 {
      LastOfTwo(b64, i);
      var tmp := Value(b64[i]) * 4 + Value(b64[i + 1]) / 16;
      ghost var before := arr[..curByte];
      arr[curByte] := tmp % 256;
      assert arr[..curByte + 1] == before + [tmp % 256];
      curByte := curByte + 1;
    }
    if placeHoldersLen == 1 {
      LastOfThree(b64, i);
      var tmp := Value(b64[i]) * 1024 + Value(b64[i + 1]) * 16 + Value(b64[i + 2]) / 4;
      ghost var before := arr[..curByte];
      arr[curByte] := tmp / 256 % 256;
      arr[curByte + 1] := tmp % 256;
      assert arr[..curByte + 2] == before + [tmp / 256 % 256, tmp % 256];
      curByte := curByte + 2;
    }
    if placeHoldersLen == 3 {
      LastOfOne(b64, i);
    }
  }

  lemma ByteLength(validLen: nat, placeHoldersLen: nat)
    requires placeHoldersLen == 0 || placeHoldersLen == 4 - validLen % 4
    ensures (validLen + placeHoldersLen) * 3 / 4 - placeHoldersLen ==
            if placeHoldersLen == 0 then validLen * 3 / 4 else validLen / 4 * 3 + validLen % 4 - 1
    ensures validLen % 4 == 0 ==> validLen * 3 / 4 == validLen / 4 * 3
  {
    var g, m := validLen / 4, validLen % 4;
    if placeHoldersLen > 0 {
      assert (validLen + placeHoldersLen) * 3 == (g * 3 + 3) * 4;
    }
  }

  /** The loop over complete groups of four letters. */
  method FillGroups(b64: Text, len: int, arr: array<byte>, ghost groups: nat)
      returns (curByte: nat, i: nat, ghost q: nat)
    requires len <= 4 * groups <= |b64| && 3 * groups <= arr.Length
    requires forall j :: 0 <= j < arr.Length ==> arr[j] == 0
    modifies arr
    ensures i == 4 * q && curByte == 3 * q <= arr.Length && (if len <= 0 then i == 0 else len <= i < len + 4)
    ensures i <= |b64| && arr[..curByte] == DecodeDigits(b64[..i])
    ensures forall j :: curByte <= j < arr.Length ==> arr[j] == 0
  {
    hide DecodeDigits, Ungroup, Value, NumberBytes, Sextets;
    curByte, i, q := 0, 0, 0;
    NothingToDecode();
    assert b64[..0] == [];
    while i < len
      invariant i == 4 * q && curByte == 3 * q && (i > 0 ==> i < len + 4) && i <= |b64|
      invariant curByte <= arr.Length && arr[..curByte] == DecodeDigits(b64[..i])
      invariant forall j :: curByte <= j < arr.Length ==> arr[j] == 0
    {
      assert q < groups;
      var v0, v1, v2, v3 := Value(b64[i]), Value(b64[i + 1]), Value(b64[i + 2]), Value(b64[i + 3]);
      var tmp := Sextets(v0, v1, v2, v3);
      GroupStep(b64, i);
      SextetsAreBytes(v0, v1, v2, v3);
      StoreGroup(arr, curByte, tmp);
      curByte := curByte + 3;
      i, q := i + 4, q + 1;
    }
  }

  method StoreGroup(arr: array<byte>, curByte: nat, tmp: nat)
    requires curByte + 3 <= arr.Length
    modifies arr
    ensures arr[..curByte + 3] == old(arr[..curByte]) + NumberBytes(tmp)
    ensures forall j :: curByte + 3 <= j < arr.Length ==> arr[j] == old(arr[j])
  {
    arr[curByte] := tmp / 65536 % 256;
    arr[curByte + 1] := tmp / 256 % 256;
    arr[curByte + 2] := tmp % 256;
  }

  lemma NothingToDecode()
    ensures DecodeDigits([]) == []
  {
  }

  lemma GroupStep(b64: Text, i: nat)
    requires i % 4 == 0 && i + 4 <= |b64|
    ensures DecodeDigits(b64[..i + 4]) ==
            DecodeDigits(b64[..i]) + Ungroup(Value(b64[i]), Value(b64[i + 1]), Value(b64[i + 2]), Value(b64[i + 3]))
  {
    hide Ungroup, Value;
    DecodeConcat(b64[..i], b64[i..i + 4]);
    assert b64[..i] + b64[i..i + 4] == b64[..i + 4];
    assert b64[i..i + 4][4..] == [];
  }

  lemma LastOfOne(b64: Text, i: nat)
    requires i % 4 == 0 && i + 1 <= |b64|
    ensures DecodeDigits(b64[..i + 1]) == DecodeDigits(b64[..i])
  {
    DecodeConcat(b64[..i], b64[i..i + 1]);
    assert b64[..i] + b64[i..i + 1] == b64[..i + 1];
  }

  lemma LastOfTwo(b64: Text, i: nat)
    requires i % 4 == 0 && i + 2 <= |b64|
    ensures DecodeDigits(b64[..i + 2]) == DecodeDigits(b64[..i]) + [(Value(b64[i]) * 4 + Value(b64[i + 1]) / 16) % 256]
  {
    hide Value, DecodeDigits;
    DecodeConcat(b64[..i], b64[i..i + 2]);
    assert b64[..i] + b64[i..i + 2] == b64[..i + 2];
    DecodeTwo(b64[i..i + 2]);
  }

  lemma DecodeTwo(t: Text)
    requires |t| == 2
    ensures DecodeDigits(t) == [(Value(t[0]) * 4 + Value(t[1]) / 16) % 256]
  {
    hide Value, Ungroup;
    TopByte(Value(t[0]), Value(t[1]));
  }

  lemma TopByte(v0: nat, v1: nat)
    requires v0 < 64 && v1 < 64
    ensures Ungroup(v0, v1, 0, 0)[..1] == [(v0 * 4 + v1 / 16) % 256]
  {
    assert 0 <= v0 * 4 + v1 / 16 < 256;
  }

  lemma LastOfThree(b64: Text, i: nat)
    requires i % 4 == 0 && i + 3 <= |b64|
    ensures var tmp := Value(b64[i]) * 1024 + Value(b64[i + 1]) * 16 + Value(b64[i + 2]) / 4;
            DecodeDigits(b64[..i + 3]) == DecodeDigits(b64[..i]) + [tmp / 256 % 256, tmp % 256]
  {
    hide Value, DecodeDigits;
    DecodeConcat(b64[..i], b64[i..i + 3]);
    assert b64[..i] + b64[i..i + 3] == b64[..i + 3];
    DecodeThree(b64[i..i + 3]);
  }

  lemma DecodeThree(t: Text)
    requires |t| == 3
    ensures var tmp := Value(t[0]) * 1024 + Value(t[1]) * 16 + Value(t[2]) / 4;
            DecodeDigits(t) == [tmp / 256 % 256, tmp % 256]
  {
    hide Value, Ungroup;
    TwoBytes(Value(t[0]), Value(t[1]), Value(t[2]));
  }

  lemma TwoBytes(v0: nat, v1: nat, v2: nat)
    requires v0 < 64 && v1 < 64 && v2 < 64
    ensures var tmp := v0 * 1024 + v1 * 16 + v2 / 4; Ungroup(v0, v1, v2, 0)[..2] == [tmp / 256 % 256, tmp % 256]
  {
    TwelveBits(v0, v1, v2);
  }

  lemma TwelveBits(v0: nat, v1: nat, v2: nat)
    requires v0 < 64 && v1 < 64 && v2 < 64
    ensures var tmp := v0 * 1024 + v1 * 16 + v2 / 4;
            tmp / 256 % 256 == v0 * 4 + v1 / 16 && tmp % 256 == v1 % 16 * 16 + v2 / 4
  {
    EightBitDigits(v0 * 1024 + v1 * 16 + v2 / 4, 0, v0 * 4 + v1 / 16, v1 % 16 * 16 + v2 / 4);
  }

  // ---------------------------------------------------------------------------------------
  // The buffer module: cleaning, URL-safe text, and the round trips
  // ---------------------------------------------------------------------------------------

  /** Only characters of the two alphabets are kept; trimming removes none of those. */
  function Filter(t: Text): Text {
    if t == [] then [] else (if InAlphabets(t[0]) then [t[0]] else []) + Filter(t[1..])
  }

  method Base64Clean(text: Text) returns (str: Text)
    ensures var kept := Filter(text[..FirstEq(text)]);
            && |str| % 4 == 0 && FillsExactly(str)
            && str[..FirstEq(str)] == if |kept| < 2 then [] else kept
  {
    hide Filter;
    str := Filter(text[..FirstEq(text)]);
    FilterPlain(text[..FirstEq(text)]);
    if |str| < 2 { return []; }
    ghost var kept := str;
    while |str| % 4 != 0
      invariant |kept| <= |str| < |kept| + 4 && str[..|kept|] == kept
      invariant forall i :: |kept| <= i < |str| ==> str[i] == EQ
      invariant |str| > |kept| ==> |kept| % 4 != 0 && |str| <= (|kept| + 3) / 4 * 4
      decreases (4 - |str| % 4) % 4
    {
      str := str + [EQ];
    }
    FirstEqIs(str, |kept|);
  }

  lemma {:induction false} FilterPlain(t: Text)
    ensures forall i :: 0 <= i < |Filter(t)| ==> InAlphabets(Filter(t)[i]) && Filter(t)[i] != EQ
  {
    if t != [] { FilterPlain(t[1..]); }
  }

  lemma {:induction false} FilterKeeps(t: Text)
    requires forall i :: 0 <= i < |t| ==> InAlphabets(t[i])
    ensures Filter(t) == t
  {
    if t != [] { FilterKeeps(t[1..]); }
  }

  lemma {:induction false} FirstEqIs(t: Text, n: nat)
    requires n <= |t| && (forall i :: 0 <= i < n ==> t[i] != EQ) && (n < |t| ==> t[n] == EQ)
    ensures FirstEq(t) == n
  {
  }

  /** Every string decodes: the cleaned text always fills the result exactly. */
  method Base64ToBytes(text: Text) returns (bytes: seq<byte>)
    ensures bytes == DecodeDigits(Filter(text[..FirstEq(text)]))
  {
    hide Filter, DecodeDigits;
    var clean := Base64Clean(text);
    var r, filled := ToByteArray(clean);
    ShortDecodes(Filter(text[..FirstEq(text)]));
    bytes := r.value;
  }

  lemma ShortDecodes(t: Text)
    ensures DecodeDigits([]) == [] && (|t| < 2 ==> DecodeDigits(t) == [])
  {
  }

  function UrlLetter(c: nat): nat {
    if c == 43 then 45 else if c == 47 then 95 else c
  }

  function UrlText(t: Text): (r: Text)
    ensures |r| == |t| && forall i :: 0 <= i < |t| ==> r[i] == UrlLetter(t[i])
  {
    seq(|t|, i requires 0 <= i < |t| => UrlLetter(t[i]))
  }

  /** Trailing padding characters removed. */
  function StripEq(t: Text): Text {
    if t != [] && t[|t| - 1] == EQ then StripEq(t[..|t| - 1]) else t
  }

  method Base64UrlSlice(bytes: seq<byte>) returns (text: Text)
    ensures text == UrlText(Digits(bytes))
  {
    hide Digits;
    var str := FromByteArray(bytes);
    DigitsShape(bytes);
    UrlOfEncoded(Digits(bytes), Padding(|bytes|));
    text := StripEq(UrlText(str));
  }

  lemma UrlOfEncoded(digits: Text, padding: Text)
    requires Plain(digits) && |padding| <= 2 && forall i :: 0 <= i < |padding| ==> padding[i] == EQ
    ensures StripEq(UrlText(digits + padding)) == UrlText(digits)
  {
    if padding == [] {
      assert digits + padding == digits;
    } else {
      var shorter := padding[..|padding| - 1];
      UrlOfEncoded(digits, shorter);
      assert UrlText(digits + padding)[..|digits + shorter|] == UrlText(digits + shorter);
    }
  }

  lemma {:induction false} UrlDecodes(t: Text)
    ensures DecodeDigits(UrlText(t)) == DecodeDigits(t)
    decreases |t|
  {
    hide Ungroup;
    assert forall c: nat :: Value(UrlLetter(c)) == Value(c);
    if |t| >= 4 {
      UrlDecodes(t[4..]);
      assert UrlText(t)[4..] == UrlText(t[4..]);
    }
  }

  /** Decoding the padded or the URL-safe unpadded text of a byte sequence returns it. */
  method RoundTrip(bytes: seq<byte>, url: bool) returns (back: seq<byte>)
    ensures back == bytes
  {
    hide Digits, DecodeDigits, Filter, InAlphabets;
    var text;
    DigitsShape(bytes);
    var n := |Digits(bytes)|;
    if url {
      text := Base64UrlSlice(bytes);
      UrlIsPlain(Digits(bytes));
      UrlDecodes(Digits(bytes));
    } else {
      text := FromByteArray(bytes);
    }
    FirstEqIs(text, n);
    assert text[..n] == if url then UrlText(Digits(bytes)) else Digits(bytes);
    FilterKeeps(text[..n]);
    back := Base64ToBytes(text);
    DecodeOfDigits(bytes);
  }

  lemma UrlIsPlain(t: Text)
    requires Plain(t)
    ensures forall i :: 0 <= i < |t| ==> InAlphabets(UrlText(t)[i]) && UrlText(t)[i] != EQ
  {
  }

  // ---------------------------------------------------------------------------------------
  // Native btoa and atob
  // ---------------------------------------------------------------------------------------

  function Latin1(input: Text): (bs: seq<byte>)
    requires forall i :: 0 <= i < |input| ==> input[i] <= 255
    ensures |bs| == |input|
  {
    seq(|input|, i requires 0 <= i < |input| => input[i])
  }

  /** None when a character is outside Latin-1; otherwise the same text as the chunked encoder. */
  method BtoaRaw(input: Text) returns (result: Option<Text>)
    ensures if exists i :: 0 <= i < |input| && input[i] > 255 then result == None
            else result == Some(Encode(Latin1(input)))
  {
    hide Encode;
    var bytes: seq<byte> := [];
    for i := 0 to |input|
      invariant |bytes| == i && forall j :: 0 <= j < i ==> input[j] <= 255 && bytes[j] == input[j]
    {
      var c := input[i];
      if c > 255 { return None; }
      bytes := bytes + [c];
    }
    assert bytes == Latin1(input);
    var text := EncodeBytes(bytes);
    result := Some(text);
  }

  lemma SextetRanges(b0: byte, b1: byte, b2: byte)
    ensures b0 / 4 < 64 && b0 % 4 * 16 + b1 / 16 < 64 && b1 % 16 * 4 + b2 / 64 < 64 && b2 % 64 < 64
  {
  }

  /** The letters of a chunk of at most three bytes, padded to four characters. */
  method EncodeTriple(chunk: seq<byte>) returns (text: Text)
    requires 1 <= |chunk| <= 3
    ensures text == Digits(chunk) + Padding(|chunk|)
  {
    hide Digits, Letter;
    ChunkDigits(chunk);
    var b0 := chunk[0];
    var b1: byte := if |chunk| > 1 then chunk[1] else 0;
    var b2: byte := if |chunk| > 2 then chunk[2] else 0;
    SextetRanges(b0, b1, b2);
    text := [Letter(b0 / 4), Letter(b0 % 4 * 16 + b1 / 16)];
    text := text + if |chunk| > 1 then [Letter(b1 % 16 * 4 + b2 / 64)] else [EQ];
    text := text + if |chunk| > 2 then [Letter(b2 % 64)] else [EQ];
  }

  /** The loop over chunks of three. */
  method EncodeBytes(bytes: seq<byte>) returns (result: Text)
    ensures result == Encode(bytes)
  {
    hide Digits, Letter;
    result := [];
    var i := 0;
    NoDigits();
    assert bytes[..0] == [];
    while i < |bytes|
      invariant 0 <= i && if i <= |bytes| then i % 3 == 0 && result == Digits(bytes[..i]) else result == Encode(bytes)
    {
      var chunk := bytes[i..if i + 3 <= |bytes| then i + 3 else |bytes|];
      DigitsConcat(bytes[..i], chunk);
      assert bytes[..i] + chunk == bytes[..i + |chunk|];
      assert i + |chunk| == |bytes| ==> bytes[..i + |chunk|] == bytes;
      var text := EncodeTriple(chunk);
      result := result + text;
      i := i + 3;
    }
    assert i == |bytes| ==> bytes[..i] == bytes && Padding(|bytes|) == [];
  }

  lemma ChunkDigits(chunk: seq<byte>)
    requires 1 <= |chunk| <= 3
    ensures var b1, b2: byte := if |chunk| > 1 then chunk[1] else 0, if |chunk| > 2 then chunk[2] else 0;
            var g := Group(chunk[0], b1, b2);
            Digits(chunk) == if |chunk| == 1 then g[..2] else if |chunk| == 2 then g[..3] else g
  {
    hide Group;
    if |chunk| == 3 { assert chunk[3..] == []; }
  }

  /** The lookup table of the decoder: padding counts as 0, everything else unknown as 255. */
  function Lookup(c: byte): (v: int)
    ensures 0 <= v < 64 || v == 255
  {
    if c == EQ then 0 else if InAlphabets(c) && c != 45 && c != 95 then Value(c) else 255
  }

  function PrependBytes(front: seq<byte>, rest: Option<seq<byte>>): Option<seq<byte>> {
    if rest.None? then None else Some(front + rest.value)
  }

  /** The bytes of one chunk of two to four characters. */
  function ChunkBytes(chunk: seq<byte>): Option<seq<byte>>
    requires 2 <= |chunk| <= 4
  {
    var a, b := Lookup(chunk[0]), Lookup(chunk[1]);
    if a == 255 || b == 255 then None
    else if |chunk| == 2 || chunk[2] == EQ then Some(Ungroup(a, b, 0, 0)[..1])
    else
      var c := Lookup(chunk[2]);
      if c == 255 then None
      else if |chunk| == 3 || chunk[3] == EQ then Some(Ungroup(a, b, c, 0)[..2])
      else
        var d := Lookup(chunk[3]);
        if d == 255 then None else Some(Ungroup(a, b, c, d))
  }

  function FirstChunk(chars: seq<byte>): seq<byte> {
    if |chars| < 4 then chars else chars[..4]
  }

  /** The bytes of all chunks; a lone character at the end is ignored. */
  function Atob(chars: seq<byte>): Option<seq<byte>>
    decreases |chars|
  {
    if |chars| < 2 then Some([])
    else
      var group := ChunkBytes(FirstChunk(chars));
      if group.None? then None else PrependBytes(group.value, Atob(chars[|FirstChunk(chars)|..]))
  }

  predicate IsAsciiSpace(c: byte) {
    c == 9 || c == 10 || c == 12 || c == 13 || c == 32
  }

  function DropSpaces(t: seq<byte>): seq<byte> {
    if t == [] then [] else (if IsAsciiSpace(t[0]) then [] else [t[0]]) + DropSpaces(t[1..])
  }

  /** `input` is the UTF-8 form of the string, which is what the source measures and indexes. */
  method AtobRaw(input: seq<byte>) returns (result: Option<seq<byte>>)
    ensures var chars := DropSpaces(input); result == if |chars| % 4 == 1 then None else Atob(chars)
  {
    hide ChunkBytes, DropSpaces;
    var chars := DropSpaces(input);
    if |chars| % 4 == 1 { return None; }
    var bytes: seq<byte> := [];
    var i := 0;
    assert chars[0..] == chars;
    PrependNone(Atob(chars));
    while i < |chars|
      invariant 0 <= i <= |chars| && (i < |chars| ==> i % 4 == 0)
      invariant Atob(chars) == PrependBytes(bytes, Atob(chars[i..]))
    {
      var rest := chars[i..];
      var chunk := FirstChunk(rest);
      if |chunk| < 2 { break; }
      assert rest[|chunk|..] == chars[i + |chunk|..];
      var group := DecodeChunk(chunk);
      if group.None? { return None; }
      PrependBoth(bytes, group.value, Atob(chars[i + |chunk|..]));
      bytes := bytes + group.value;
      i := i + |chunk|;
    }
    assert bytes + [] == bytes;
    result := Some(bytes);
  }

  method DecodeChunk(chunk: seq<byte>) returns (result: Option<seq<byte>>)
    requires 2 <= |chunk| <= 4
    ensures result == ChunkBytes(chunk)
  {
    hide Lookup;
    var a, b := Lookup(chunk[0]), Lookup(chunk[1]);
    if a == 255 || b == 255 { return None; }
    var bytes := [a * 4 + b / 16];
    if |chunk| > 2 && chunk[2] != EQ {
      var c := Lookup(chunk[2]);
      if c == 255 { return None; }
      bytes := bytes + [b % 16 * 16 + c / 4];
      if |chunk| > 3 && chunk[3] != EQ {
        var d := Lookup(chunk[3]);
        if d == 255 { return None; }
        bytes := bytes + [c % 4 * 64 + d];
      }
    }
    assert ChunkBytes(chunk).Some? && bytes == ChunkBytes(chunk).value;
    result := Some(bytes);
  }

  predicate Standard(c: byte) {
    InAlphabets(c) && c != 45 && c != 95
  }

  lemma LookupStandard(c: byte)
    requires c != EQ
    ensures Lookup(c) == if Standard(c) then Value(c) else 255
  {
  }

  lemma ChunkOfLetters(chunk: seq<byte>)
    requires 2 <= |chunk| <= 4 && EQ !in chunk
    ensures ChunkBytes(chunk) ==
            if forall i :: 0 <= i < |chunk| ==> Standard(chunk[i]) then Some(DecodeDigits(chunk)) else None
  {
    hide Lookup, Value, Ungroup, Standard;
    forall i | 0 <= i < |chunk| ensures Lookup(chunk[i]) == if Standard(chunk[i]) then Value(chunk[i]) else 255 {
      LookupStandard(chunk[i]);
    }
    if |chunk| == 4 {
      assert chunk[4..] == [];
      NothingToDecode();
      var group := Ungroup(Value(chunk[0]), Value(chunk[1]), Value(chunk[2]), Value(chunk[3]));
      assert group + [] == group;
    }
  }

  /** A text without padding decodes to the bytes of its letters, and fails exactly on a character that
      is no letter of the standard alphabet. */
  lemma {:induction false} AtobOfLetters(t: seq<byte>)
    requires |t| % 4 != 1 && EQ !in t
    ensures Atob(t) == if forall i :: 0 <= i < |t| ==> Standard(t[i]) then Some(DecodeDigits(t)) else None
    decreases |t|
  {
    hide ChunkBytes, Standard, DecodeDigits, FirstChunk;
    NothingToDecode();
    if |t| >= 2 {
      FirstOf(t);
      var chunk := FirstChunk(t);
      var rest := t[|chunk|..];
      ChunkOfLetters(chunk);
      AtobOfLetters(rest);
      AllStandard(t, chunk, rest);
      if |t| < 4 {
        assert DecodeDigits(chunk) + [] == DecodeDigits(chunk);
      } else {
        DecodeConcat(chunk, rest);
      }
    }
  }

  lemma FirstOf(t: seq<byte>)
    requires |t| >= 2
    ensures var chunk := FirstChunk(t);
            && t == chunk + t[|chunk|..] && (if |t| < 4 then chunk == t && t[|chunk|..] == [] else |chunk| == 4)
  {
  }

  lemma AllStandard(t: seq<byte>, chunk: seq<byte>, rest: seq<byte>)
    requires t == chunk + rest
    ensures (forall i :: 0 <= i < |t| ==> Standard(t[i])) <==>
            (forall i :: 0 <= i < |chunk| ==> Standard(chunk[i])) && (forall i :: 0 <= i < |rest| ==> Standard(rest[i]))
  {
    hide Standard;
    assert forall i :: 0 <= i < |chunk| ==> chunk[i] == t[i];
    assert forall i :: 0 <= i < |rest| ==> rest[i] == t[|chunk| + i];
    assert forall i :: |chunk| <= i < |t| ==> t[i] == rest[i - |chunk|];
  }

  /** The text of `Encode` as the bytes atob receives. */
  function AsBytes(t: Text): (bs: seq<byte>)
    requires forall i :: 0 <= i < |t| ==> t[i] < 128
    ensures |bs| == |t| && forall i :: 0 <= i < |t| ==> bs[i] == t[i]
  {
    seq(|t|, i requires 0 <= i < |t| => t[i])
  }

  lemma LookupLetter(i: int)
    requires 0 <= i < 64
    ensures Lookup(Letter(i)) == i && !IsAsciiSpace(Letter(i)) && Letter(i) != EQ
  {
  }

  /** Codes below 128 that are no white space, as every encoded text has. */
  predicate AtobSafe(t: Text) {
    forall i :: 0 <= i < |t| ==> t[i] < 128 && !(9 <= t[i] <= 13) && t[i] != 32
  }

  lemma EncodeIsSafe(bs: seq<byte>)
    ensures AtobSafe(Encode(bs))
  {
    DigitsShape(bs);
  }

  /** The chunk of a group of bytes gives them back, padding included. */
  lemma ChunkOfGroup(b0: byte, b1: byte, b2: byte, n: nat)
    requires 1 <= n <= 3 && (n == 1 ==> b1 == 0) && (n <= 2 ==> b2 == 0)
    ensures var t := Group(b0, b1, b2)[..n + 1] + Padding(n);
            |t| == 4 && AtobSafe(t) && ChunkBytes(AsBytes(t)) == Some([b0, b1, b2][..n])
  {
    hide Letter, Lookup, Ungroup, AsBytes, InAlphabets;
    var l0, l1, l2, l3 := b0 / 4, b0 % 4 * 16 + b1 / 16, b1 % 16 * 4 + b2 / 64, b2 % 64;
    GroupIsPlain(b0, b1, b2);
    LookupLetter(l0); LookupLetter(l1); LookupLetter(l2); LookupLetter(l3);
    Regroup(b0 / 4, b0 % 4, b1 / 16, b1 % 16, b2 / 64, b2 % 64);
    ShortUngroup(l0, l1, l2, l3);
    var t := Group(b0, b1, b2)[..n + 1] + Padding(n);
    PlainIsSafe(Group(b0, b1, b2), Padding(n), n + 1);
    assert t[0] == Letter(l0) && t[1] == Letter(l1);
    assert t[2] == (if n == 1 then EQ else Letter(l2)) && t[3] == if n <= 2 then EQ else Letter(l3);
    assert [b0, b1, b2] == Ungroup(l0, l1, l2, l3);
    assert n == 3 ==> [b0, b1, b2][..3] == [b0, b1, b2];
  }

  lemma PlainIsSafe(t: Text, padding: Text, n: nat)
    requires Plain(t) && n <= |t| && forall i :: 0 <= i < |padding| ==> padding[i] == EQ
    ensures AtobSafe(t[..n] + padding)
  {
  }

  lemma EncodeSplits(bs: seq<byte>)
    requires |bs| >= 3
    ensures Encode(bs) == Group(bs[0], bs[1], bs[2]) + Encode(bs[3..])
  {
    hide Group;
    assert Digits(bs) + Padding(|bs|) == Group(bs[0], bs[1], bs[2]) + (Digits(bs[3..]) + Padding(|bs|));
  }

  lemma EncodeLast(bs: seq<byte>)
    requires 1 <= |bs| <= 2
    ensures Encode(bs) == Group(bs[0], if |bs| > 1 then bs[1] else 0, 0)[..|bs| + 1] + Padding(|bs|)
  {
  }

  lemma AtobStep(t: Text, rest: Text)
    requires |t| == 4 && AtobSafe(t) && AtobSafe(rest)
    ensures AtobSafe(t + rest)
    ensures var group := ChunkBytes(AsBytes(t));
            Atob(AsBytes(t + rest)) == if group.None? then None else PrependBytes(group.value, Atob(AsBytes(rest)))
  {
    hide ChunkBytes;
    assert FirstChunk(AsBytes(t + rest)) == AsBytes(t);
    assert AsBytes(t + rest)[4..] == AsBytes(rest);
  }

  /** atob undoes btoa. */
  lemma {:induction false} AtobOfEncode(bs: seq<byte>)
    ensures AtobSafe(Encode(bs)) && Atob(AsBytes(Encode(bs))) == Some(bs)
    decreases |bs|
  {
    hide Group, ChunkBytes, Encode, Atob, AsBytes, Padding;
    EncodeIsSafe(bs);
    AtobNothing();
    if |bs| >= 3 {
      ChunkOfGroup(bs[0], bs[1], bs[2], 3);
      NoPadding(Group(bs[0], bs[1], bs[2]));
      EncodeSplits(bs);
      AtobOfEncode(bs[3..]);
      AtobStep(Group(bs[0], bs[1], bs[2]), Encode(bs[3..]));
      assert [bs[0], bs[1], bs[2]][..3] + bs[3..] == bs;
    } else if bs != [] {
      var b1: byte := if |bs| > 1 then bs[1] else 0;
      ChunkOfGroup(bs[0], b1, 0, |bs|);
      EncodeLast(bs);
      AtobStep(Encode(bs), []);
      assert Encode(bs) + [] == Encode(bs);
      assert [bs[0], b1, 0][..|bs|] + [] == bs;
    }
  }

  lemma NoPadding(t: Text)
    requires |t| == 4
    ensures t[..4] + Padding(3) == t
  {
  }

  lemma AtobNothing()
    ensures Encode([]) == [] && AsBytes([]) == [] && Atob([]) == Some([])
  {
  }

  lemma {:induction false} DropNothing(t: seq<byte>)
    requires forall i :: 0 <= i < |t| ==> !IsAsciiSpace(t[i])
    ensures DropSpaces(t) == t
  {
    if t != [] { DropNothing(t[1..]); }
  }

  lemma {:induction false} EncodeLength(bs: seq<byte>)
    ensures |Encode(bs)| % 4 == 0
  {
    DigitsShape(bs);
  }

  lemma PrependNone(rest: Option<seq<byte>>)
    ensures PrependBytes([], rest) == rest
  {
    if rest.Some? { assert [] + rest.value == rest.value; }
  }

  lemma PrependBoth(a: seq<byte>, b: seq<byte>, rest: Option<seq<byte>>)
    ensures PrependBytes(a, PrependBytes(b, rest)) == PrependBytes(a + b, rest)
  {
    if rest.Some? { assert a + (b + rest.value) == a + b + rest.value; }
  }

  /** btoa and then atob give the Latin-1 string back, and btoa writes what the chunked encoder writes. */
  method NativeRoundTrip(bytes: seq<byte>) returns (text: Text, back: Option<seq<byte>>)
    ensures text == Encode(bytes) && back == Some(bytes)
  {
    hide Encode, Atob, DropSpaces;
    var input := seq(|bytes|, i requires 0 <= i < |bytes| => bytes[i] as nat);
    var encoded := BtoaRaw(input);
    assert Latin1(input) == bytes;
    text := encoded.value;
    EncodeIsSafe(bytes);
    EncodeLength(bytes);
    AtobOfEncode(bytes);
    DropNothing(AsBytes(text));
    back := AtobRaw(AsBytes(text));
    var chunked := FromByteArray(bytes);
    assert text == chunked;
  }
}
