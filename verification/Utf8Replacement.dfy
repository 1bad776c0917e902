/** What bytes decode to, told from the grammar of section 4 of RFC 3629 alone: every character gives
    its scalar value, and every maximal ill-formed part one error. */
module Utf8Replacement {
  import opened Utf8

  /** `c` can be continued to a UTF8-char, or is one. */
  ghost predicate Begins(c: seq<byte>) {
    exists d: seq<byte> :: Utf8Char(c + d)
  }

  /** `c` is the encoding of the scalar value `cp`. */
  predicate Encodes(c: seq<byte>, cp: int) {
    ScalarValue(cp) && c == EncodeScalar(cp)
  }

  /** The first n bytes are a maximal ill-formed part: no character is at the front, and the n bytes
      are the longest front that begins one, or a single byte that begins none. */
  ghost predicate IllFormedPart(bs: seq<byte>, n: nat) {
    && 1 <= n <= |bs| && CharLength(bs) == 0
    && (n == 1 || Begins(bs[..n])) && (n == |bs| || !Begins(bs[..n + 1]))
  }

  ghost predicate FirstItem(bs: seq<byte>, n: nat, item: Item) {
    1 <= n <= |bs| &&
    match item
    case Point(cp) => Encodes(bs[..n], cp)
    case Bad => IllFormedPart(bs, n)
  }

  /** `items` reads `bs` part by part. */
  ghost predicate Reads(bs: seq<byte>, items: seq<Item>)
    decreases |bs|
  {
    if bs == [] then items == []
    else items != [] && exists n: nat :: 1 <= n <= |bs| && FirstItem(bs, n, items[0]) && Reads(bs[n..], items[1..])
  }

  // ---------------------------------------------------------------------------------------
  // The decoder's state after an unfinished character
  // ---------------------------------------------------------------------------------------

  /** The lead byte has bytes to come, and those taken so far are allowed. */
  predicate Unfinished(c: seq<byte>) {
    && c != [] && |c| - 1 < Lead(c[0]).0.needed
    && (|c| > 1 ==> Lead(c[0]).0.lower <= c[1] <= Lead(c[0]).0.upper) && (|c| > 2 ==> Tail(c[2]))
  }

  /** Bytes that finish an unfinished character. */
  function Ending(c: seq<byte>): seq<byte>
    requires Unfinished(c)
  {
    var s := Lead(c[0]).0;
    var first := if |c| == 1 then s.lower else 0x80;
    if s.needed - |c| == 0 then [first] else if s.needed - |c| == 1 then [first, 0x80] else [first, 0x80, 0x80]
  }

  lemma EndingFinishes(c: seq<byte>)
    requires Unfinished(c)
    ensures Utf8Char(c + Ending(c))
  {
  }

  lemma BeginningIsUnfinished(c: seq<byte>, d: seq<byte>)
    requires c != [] && Utf8Char(c + d)
    ensures if d == [] then Utf8Char(c) else Unfinished(c)
  {
    var w := c + d;
    assert d == [] ==> w == c;
    assert w[0] == c[0] && (|c| > 1 ==> w[1] == c[1]) && (|c| > 2 ==> w[2] == c[2]);
  }

  lemma Beginnings(c: seq<byte>)
    requires c != []
    ensures Begins(c) <==> Utf8Char(c) || Unfinished(c)
  {
    hide Utf8Char, Unfinished, Ending;
    if d: seq<byte> :| Utf8Char(c + d) {
      BeginningIsUnfinished(c, d);
    }
    if Utf8Char(c) {
      assert c + [] == c;
    } else if Unfinished(c) {
      EndingFinishes(c);
    }
  }

  /** After an unfinished character nothing is emitted, and exactly the bytes that lead on are accepted. */
  lemma UnfinishedRun(c: seq<byte>)
    requires Unfinished(c)
    ensures var (s, o) := Run(IDLE, c);
            && o == [] && s != IDLE
            && forall b: byte :: s.lower <= b <= s.upper <==> Utf8Char(c + [b]) || Unfinished(c + [b])
  {
    UnfinishedState(c);
    var s := Run(IDLE, c).0;
    forall b: byte
      ensures s.lower <= b <= s.upper <==> Utf8Char(c + [b]) || Unfinished(c + [b])
    {
      NextByte(c, b);
    }
  }

  /** The bounds for the byte behind an unfinished character. */
  function Bounds(c: seq<byte>): (int, int)
    requires Unfinished(c)
  {
    if |c| == 1 then (Lead(c[0]).0.lower, Lead(c[0]).0.upper) else (0x80, 0xBF)
  }

  lemma NextByte(c: seq<byte>, b: byte)
    requires Unfinished(c)
    ensures Bounds(c).0 <= b <= Bounds(c).1 <==> Utf8Char(c + [b]) || Unfinished(c + [b])
  {
  }

  lemma UnfinishedState(c: seq<byte>)
    requires Unfinished(c)
    ensures Run(IDLE, c).1 == [] && Run(IDLE, c).0 != IDLE
    ensures Bounds(c) == (Run(IDLE, c).0.lower, Run(IDLE, c).0.upper)
  {
    hide Run, Lead;
    RunFirst(c);
    AcceptedRun(Lead(c[0]).0, c[1..]);
  }

  lemma {:induction false} AcceptedRun(s: State, bs: seq<byte>)
    requires Sane(s) && |bs| < s.needed && (bs != [] ==> s.lower <= bs[0] <= s.upper)
    requires forall i :: 1 <= i < |bs| ==> Tail(bs[i])
    ensures Run(s, bs).1 == [] && Run(s, bs).0 != IDLE
    ensures if bs == [] then Run(s, bs).0 == s else Run(s, bs).0.lower == 0x80 && Run(s, bs).0.upper == 0xBF
    decreases |bs|
  {
    if bs != [] {
      AcceptedRun(Step(s, bs[0]).0, bs[1..]);
    }
  }

  // ---------------------------------------------------------------------------------------
  // The laws of replacement
  // ---------------------------------------------------------------------------------------

  /** The encoding of a scalar value decodes to it. */
  lemma CharacterDecodes(cp: int, rest: seq<byte>)
    requires ScalarValue(cp)
    ensures Decode(EncodeScalar(cp) + rest) == [Point(cp)] + Decode(rest)
  {
    hide EncodeScalar, Run;
    EncodeScalarDecodes(cp);
    CutDecodes(EncodeScalar(cp), rest);
  }

  /** An unfinished character and a byte that does not lead on: one error, and the byte is decoded anew. */
  lemma BrokenPart(c: seq<byte>, b: byte, rest: seq<byte>)
    requires c != [] && Begins(c) && !Utf8Char(c) && !Begins(c + [b])
    ensures Decode(c + ([b] + rest)) == [Bad] + Decode([b] + rest)
  {
    hide Run, Begins, Unfinished, Utf8Char;
    Beginnings(c);
    Beginnings(c + [b]);
    UnfinishedRun(c);
    RunConcat(IDLE, c, [b] + rest);
    var s := Run(IDLE, c).0;
    Refuses(s, b, rest);
  }

  lemma Refuses(s: State, b: byte, rest: seq<byte>)
    requires Sane(s) && s != IDLE && !(s.lower <= b <= s.upper)
    ensures Run(s, [b] + rest) == (Run(IDLE, [b] + rest).0, [Bad] + Run(IDLE, [b] + rest).1)
  {
    hide Lead;
    var (s1, o1) := Lead(b);
    assert ([b] + rest)[1..] == rest;
    assert [Bad] + (o1 + Run(s1, rest).1) == [Bad] + o1 + Run(s1, rest).1;
  }

  /** A byte that begins no character is one error. */
  lemma StrayByte(b: byte, rest: seq<byte>)
    requires !Begins([b])
    ensures Decode([b] + rest) == [Bad] + Decode(rest)
  {
    hide Run, Begins;
    Beginnings([b]);
    StrayRun(b);
    CutDecodes([b], rest);
  }

  lemma StrayRun(b: byte)
    requires !Utf8Char([b]) && !Unfinished([b])
    ensures Run(IDLE, [b]) == (IDLE, [Bad])
  {
    RunFirst([b]);
  }

  /** An unfinished character at the end of the input is one error. */
  lemma TruncatedPart(c: seq<byte>)
    requires c != [] && Begins(c) && !Utf8Char(c)
    ensures Decode(c) == [Bad]
  {
    hide Run, Begins, Unfinished, Utf8Char;
    Beginnings(c);
    UnfinishedRun(c);
  }

  // ---------------------------------------------------------------------------------------
  // The laws determine the decoding
  // ---------------------------------------------------------------------------------------

  /** Every UTF8-char is the encoding of a scalar value. */
  lemma CharIsEncoding(c: seq<byte>) returns (cp: int)
    requires Utf8Char(c)
    ensures Encodes(c, cp)
  {
    if |c| == 3 {
      cp := ThreeByteChar(c);
    } else if |c| == 4 {
      cp := FourByteChar(c);
    } else {
      var k: int := c[0];
      cp := if |c| == 1 then k else (k - 0xC0) * 64 + (c[1] as int - 0x80);
    }
  }

  lemma ThreeByteChar(c: seq<byte>) returns (cp: int)
    requires Utf8Char(c) && |c| == 3
    ensures Encodes(c, cp)
  {
    var k: int, l: int, m: int := c[0], c[1], c[2];
    cp := ((k - 0xE0) * 64 + (l - 0x80)) * 64 + (m - 0x80);
    ThreeDigits(k - 0xE0, l - 0x80, m - 0x80, cp);
  }

  lemma FourByteChar(c: seq<byte>) returns (cp: int)
    requires Utf8Char(c) && |c| == 4
    ensures Encodes(c, cp)
  {
    var k: int, l: int, m: int, n: int := c[0], c[1], c[2], c[3];
    cp := (((k - 0xF0) * 64 + (l - 0x80)) * 64 + (m - 0x80)) * 64 + (n - 0x80);
    FourDigits(k - 0xF0, l - 0x80, m - 0x80, n - 0x80, cp);
  }

  lemma ThreeDigits(a: nat, b: nat, c: nat, cp: int)
    requires b < 64 && c < 64 && cp == (a * 64 + b) * 64 + c
    ensures cp / 4096 == a && cp / 64 % 64 == b && cp % 64 == c
  {
  }

  lemma FourDigits(a: nat, b: nat, c: nat, d: nat, cp: int)
    requires b < 64 && c < 64 && d < 64 && cp == ((a * 64 + b) * 64 + c) * 64 + d
    ensures cp / 262144 == a && cp / 4096 % 64 == b && cp / 64 % 64 == c && cp % 64 == d
  {
    assert cp / 64 == (a * 64 + b) * 64 + c;
    ThreeDigits(a, b, c, cp / 64);
  }

  /** Whatever part the front is read as, decoding gives its item and goes on behind it. */
  lemma FirstItemDecodes(bs: seq<byte>, n: nat, item: Item)
    requires FirstItem(bs, n, item)
    ensures Decode(bs) == [item] + Decode(bs[n..])
  {
    hide Decode, Begins, Utf8Char, CharLength, EncodeScalar;
    assert bs[..n] + bs[n..] == bs;
    if item.Point? {
      CharacterDecodes(item.cp, bs[n..]);
    } else {
      IllFormedDecodes(bs, n);
    }
  }

  lemma IllFormedDecodes(bs: seq<byte>, n: nat)
    requires IllFormedPart(bs, n)
    ensures Decode(bs) == [Bad] + Decode(bs[n..])
  {
    hide Decode, Begins, Utf8Char, CharLength;
    var c := bs[..n];
    assert c + bs[n..] == bs;
    if Utf8Char(c) {
      CharLengthUnique(bs, c);
    }
    if !Begins(c) {
      assert c == [bs[0]];
      StrayByte(bs[0], bs[n..]);
    } else if n == |bs| {
      assert bs[n..] == [] && c == bs;
      TruncatedPart(c);
      EmptyDecodes();
    } else {
      assert c + [bs[n]] == bs[..n + 1];
      assert [bs[n]] + bs[n + 1..] == bs[n..];
      BrokenPart(c, bs[n], bs[n + 1..]);
    }
  }

  lemma EmptyDecodes()
    ensures Decode([]) == []
  {
  }

  /** Some part is at the front of every non-empty input. */
  lemma SomeFirstItem(bs: seq<byte>) returns (n: nat, item: Item)
    requires bs != []
    ensures FirstItem(bs, n, item)
  {
    hide Begins, Utf8Char, EncodeScalar;
    n := CharLength(bs);
    if n > 0 {
      var cp := CharIsEncoding(bs[..n]);
      item := Point(cp);
    } else {
      n, item := 1, Bad;
      while n < |bs| && Begins(bs[..n + 1])
        invariant 1 <= n <= |bs| && (n == 1 || Begins(bs[..n]))
      {
        n := n + 1;
      }
    }
  }

  /** The decoder reads every input part by part, and there is no other way to read it. */
  lemma {:induction false} DecodeReads(bs: seq<byte>, items: seq<Item>)
    ensures Reads(bs, items) <==> items == Decode(bs)
    decreases |bs|
  {
    hide Decode, FirstItem;
    if bs == [] {
      EmptyDecodes();
    } else {
      if Reads(bs, items) {
        var n: nat :| 1 <= n <= |bs| && FirstItem(bs, n, items[0]) && Reads(bs[n..], items[1..]);
        FirstItemWithin(bs, n, items[0]);
        FirstItemDecodes(bs, n, items[0]);
        DecodeReads(bs[n..], items[1..]);
      }
      if items == Decode(bs) {
        var n, item := SomeFirstItem(bs);
        FirstItemWithin(bs, n, item);
        FirstItemDecodes(bs, n, item);
        DecodeReads(bs[n..], items[1..]);
      }
    }
  }

  lemma FirstItemWithin(bs: seq<byte>, n: nat, item: Item)
    requires FirstItem(bs, n, item)
    ensures 1 <= n <= |bs|
  {
  }
}
