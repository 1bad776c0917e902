/** UTF-8 as the standards define it: the grammar of section 4 of RFC 3629, the encoding of its
    section 3, and the decoder of section 8.1.1 of the WHATWG Encoding Standard. Everything the
    runtime does with UTF-8 is proved against these definitions. */
module Utf8 {

  type byte = b: int | 0 <= b < 256

  function Flatten<T>(parts: seq<seq<T>>): seq<T> {
    if parts == [] then [] else parts[0] + Flatten(parts[1..])
  }

  lemma {:induction false} FlattenSnoc<T>(parts: seq<seq<T>>, last: seq<T>)
    ensures Flatten(parts + [last]) == Flatten(parts) + last
  {
    if parts != [] {
      FlattenSnoc(parts[1..], last);
      assert (parts + [last])[1..] == parts[1..] + [last];
    }
  }

  lemma {:induction false} FlattenConcat<T>(a: seq<seq<T>>, b: seq<seq<T>>)
    ensures Flatten(a + b) == Flatten(a) + Flatten(b)
    decreases |a|
  {
    if a == [] {
      assert a + b == b;
    } else {
      FlattenConcat(a[1..], b);
      assert (a + b)[1..] == a[1..] + b;
    }
  }

  lemma FlattenSplit<T>(parts: seq<seq<T>>, i: nat)
    requires i <= |parts|
    ensures Flatten(parts) == Flatten(parts[..i]) + Flatten(parts[i..])
  {
    hide Flatten;
    FlattenConcat(parts[..i], parts[i..]);
    assert parts[..i] + parts[i..] == parts;
  }

  // ---------------------------------------------------------------------------------------
  // Grammar: section 4 of RFC 3629
  // ---------------------------------------------------------------------------------------

  predicate Tail(b: byte) {
    0x80 <= b <= 0xBF
  }

  predicate Utf8Char(c: seq<byte>) {
    match |c|
    case 1 => c[0] <= 0x7F
    case 2 => 0xC2 <= c[0] <= 0xDF && Tail(c[1])
    case 3 =>
      && Tail(c[2])
      && (|| (c[0] == 0xE0 && 0xA0 <= c[1] <= 0xBF) || (0xE1 <= c[0] <= 0xEC && Tail(c[1]))
          || (c[0] == 0xED && 0x80 <= c[1] <= 0x9F) || (0xEE <= c[0] <= 0xEF && Tail(c[1])))
    case 4 =>
      && Tail(c[2]) && Tail(c[3])
      && (|| (c[0] == 0xF0 && 0x90 <= c[1] <= 0xBF) || (0xF1 <= c[0] <= 0xF3 && Tail(c[1]))
          || (c[0] == 0xF4 && 0x80 <= c[1] <= 0x8F))
    case _ => false
  }

  ghost predicate Derivation(parts: seq<seq<byte>>, bs: seq<byte>) {
    (forall i :: 0 <= i < |parts| ==> Utf8Char(parts[i])) && Flatten(parts) == bs
  }

  /** UTF8-octets: a sequence of UTF8-chars. */
  ghost predicate Utf8Octets(bs: seq<byte>) {
    exists parts: seq<seq<byte>> :: Derivation(parts, bs)
  }

  /** The length of the UTF8-char at the front, 0 when there is none. */
  function CharLength(bs: seq<byte>): (n: nat)
    ensures n <= 4 && n <= |bs| && (n > 0 ==> Utf8Char(bs[..n]))
  {
    if |bs| >= 1 && Utf8Char(bs[..1]) then 1
    else if |bs| >= 2 && Utf8Char(bs[..2]) then 2
    else if |bs| >= 3 && Utf8Char(bs[..3]) then 3
    else if |bs| >= 4 && Utf8Char(bs[..4]) then 4
    else 0
  }

  predicate WellFormed(bs: seq<byte>) {
    bs == [] || (CharLength(bs) > 0 && WellFormed(bs[CharLength(bs)..]))
  }

  /** No UTF8-char is a prefix of another, so the greedy reading finds a derivation if one exists. */
  lemma {:induction false} WellFormedIsGrammar(bs: seq<byte>)
    ensures WellFormed(bs) <==> Utf8Octets(bs)
    decreases |bs|
  {
    hide Utf8Char, CharLength;
    if bs == [] {
      assert Derivation([], bs);
    } else {
      var n := CharLength(bs);
      if parts: seq<seq<byte>> :| Derivation(parts, bs) {
        CharLengthUnique(bs, parts[0]);
        assert Derivation(parts[1..], bs[n..]);
        WellFormedIsGrammar(bs[n..]);
      }
      if WellFormed(bs) {
        WellFormedIsGrammar(bs[n..]);
        var parts: seq<seq<byte>> :| Derivation(parts, bs[n..]);
        assert Derivation([bs[..n]] + parts, bs);
      }
    }
  }

  lemma CharLengthUnique(bs: seq<byte>, c: seq<byte>)
    requires c <= bs && Utf8Char(c)
    ensures CharLength(bs) == |c| > 0
  {
    assert c == bs[..|c|];
  }

  // ---------------------------------------------------------------------------------------
  // The decoder: section 8.1.1 of the WHATWG Encoding Standard
  // ---------------------------------------------------------------------------------------

  /** `needed` continuation bytes are still to come after the `held` bytes taken so far; the next
      one must lie between `lower` and `upper`. Idle when nothing is needed. */
  datatype State = State(needed: nat, held: nat, point: int, lower: int, upper: int)

  const IDLE := State(0, 0, 0, 0x80, 0xBF)

  /** What the decoder emits: a code point, or an error (a replacement or, when fatal, a throw). */
  datatype Item = Point(cp: int) | Bad

  ghost predicate Sane(st: State) {
    && st.needed <= 3 && 0x80 <= st.lower <= st.upper <= 0xBF
    && (st.needed == 0 ==> st == IDLE) && (st.needed > 0 ==> 1 <= st.held <= 4 - st.needed)
  }

  function Lead(b: byte): (r: (State, seq<Item>))
    ensures Sane(r.0) && (r.0 != IDLE ==> r.1 == [])
  {
    if b <= 0x7F then (IDLE, [Point(b)])
    else if 0xC2 <= b <= 0xDF then (State(1, 1, b - 0xC0, 0x80, 0xBF), [])
    else if 0xE0 <= b <= 0xEF then
      (State(2, 1, b - 0xE0, if b == 0xE0 then 0xA0 else 0x80, if b == 0xED then 0x9F else 0xBF), [])
    else if 0xF0 <= b <= 0xF4 then
      (State(3, 1, b - 0xF0, if b == 0xF0 then 0x90 else 0x80, if b == 0xF4 then 0x8F else 0xBF), [])
    else (IDLE, [Bad])
  }

  function Step(st: State, b: byte): (r: (State, seq<Item>))
    requires Sane(st)
    ensures Sane(r.0)
  {
    if st.needed == 0 then Lead(b)
    else if !(st.lower <= b <= st.upper) then (Lead(b).0, [Bad] + Lead(b).1)
    else
      var point := st.point * 64 - 0x80 + b;
      if st.needed == 1 then (IDLE, [Point(point)])
      else (State(st.needed - 1, st.held + 1, point, 0x80, 0xBF), [])
  }

  function Run(st: State, bs: seq<byte>): (r: (State, seq<Item>))
    requires Sane(st)
    ensures Sane(r.0)
    decreases |bs|
  {
    if bs == [] then (st, [])
    else
      var (s1, o1) := Step(st, bs[0]);
      var (s2, o2) := Run(s1, bs[1..]);
      (s2, o1 + o2)
  }

  function Finish(st: State): seq<Item> {
    if st.needed == 0 then [] else [Bad]
  }

  /** One-shot decoding: run over all bytes, then flush. */
  function Decode(bs: seq<byte>): seq<Item> {
    Run(IDLE, bs).1 + Finish(Run(IDLE, bs).0)
  }

  lemma {:induction false} RunConcat(st: State, a: seq<byte>, b: seq<byte>)
    requires Sane(st)
    ensures var (s1, o1) := Run(st, a); Run(st, a + b) == (Run(s1, b).0, o1 + Run(s1, b).1)
    decreases |a|
  {
    hide Step;
    if a == [] {
      assert a + b == b;
      assert [] + Run(st, b).1 == Run(st, b).1;
    } else {
      var (s1, o1) := Step(st, a[0]);
      RunConcat(s1, a[1..], b);
      assert (a + b)[1..] == a[1..] + b;
      assert o1 + (Run(s1, a[1..]).1 + Run(Run(st, a).0, b).1) == o1 + Run(s1, a[1..]).1 + Run(Run(st, a).0, b).1;
    }
  }

  // ---------------------------------------------------------------------------------------
  // Cut points: where a byte sequence can be split without changing what is decoded
  // ---------------------------------------------------------------------------------------

  /** Decoding may restart between a and b: a ends a character, or b starts with no continuation. */
  ghost predicate CutPoint(a: seq<byte>, b: seq<byte>) {
    Run(IDLE, a).0 == IDLE || (b != [] && !Tail(b[0]))
  }

  lemma RunNothing(s: State)
    requires Sane(s)
    ensures Run(s, []) == (s, [])
  {
  }

  /** A byte that is no continuation ends an unfinished character with one error. */
  lemma Resynchronizes(s: State, b: seq<byte>)
    requires Sane(s) && s != IDLE && b != [] && !Tail(b[0])
    ensures Run(s, b) == (Run(IDLE, b).0, [Bad] + Run(IDLE, b).1)
  {
    var (s1, o1) := Lead(b[0]);
    assert [Bad] + (o1 + Run(s1, b[1..]).1) == [Bad] + o1 + Run(s1, b[1..]).1;
  }

  lemma {:induction false} CutDecodes(a: seq<byte>, b: seq<byte>)
    requires CutPoint(a, b)
    ensures Decode(a + b) == Decode(a) + Decode(b)
    ensures b != [] || Run(IDLE, a).0 == IDLE ==> Run(IDLE, a + b).0 == Run(IDLE, b).0
  {
    hide Run, Step;
    RunConcat(IDLE, a, b);
    RunNothing(IDLE);
    var s := Run(IDLE, a).0;
    if s != IDLE {
      Resynchronizes(s, b);
    }
  }

  // ---------------------------------------------------------------------------------------
  // The decoder and the grammar agree
  // ---------------------------------------------------------------------------------------

  /** The bytes that complete the character the decoder is in the middle of. */
  predicate Completes(s: State, c: seq<byte>) {
    && 0 < s.needed == |c| && s.lower <= c[0] <= s.upper
    && forall i :: 1 <= i < |c| ==> Tail(c[i])
  }

  function Fold(point: int, c: seq<byte>): int
    decreases |c|
  {
    if c == [] then point else Fold(point * 64 - 0x80 + c[0], c[1..])
  }

  lemma {:induction false} CompletingRun(s: State, c: seq<byte>)
    requires Sane(s) && Completes(s, c)
    ensures Run(s, c) == (IDLE, [Point(Fold(s.point, c))])
    decreases s.needed
  {
    var (s1, o1) := Step(s, c[0]);
    if s.needed > 1 {
      assert c[1] == c[1..][0];
      CompletingRun(s1, c[1..]);
      assert o1 + Run(s1, c[1..]).1 == Run(s1, c[1..]).1;
    } else {
      assert c[1..] == [];
      assert o1 + [] == o1;
    }
  }

  /** In the middle of a character, bytes that do not complete it decode to an error. */
  lemma {:induction false} BreakingRun(s: State, bs: seq<byte>)
    requires Sane(s) && s.needed > 0 && !(|bs| >= s.needed && Completes(s, bs[..s.needed]))
    ensures Bad in Run(s, bs).1 + Finish(Run(s, bs).0)
    decreases s.needed
  {
    if bs != [] && s.lower <= bs[0] <= s.upper {
      var s1 := Step(s, bs[0]).0;
      if s.needed > 1 {
        if |bs| >= s.needed {
          assert bs[..s.needed][1..] == bs[1..][..s.needed - 1];
        }
        BreakingRun(s1, bs[1..]);
      } 
    }
  }

  lemma LeadOpensChar(bs: seq<byte>)
    requires bs != [] && Lead(bs[0]).0 != IDLE
    ensures var s := Lead(bs[0]).0;
            CharLength(bs) == if |bs| > s.needed && Completes(s, bs[1..][..s.needed]) then s.needed + 1 else 0
  {
    var s := Lead(bs[0]).0;
    if |bs| > s.needed {
      assert bs[1..][..s.needed] == bs[1..s.needed + 1];
    }
  }

  /** At the front of the input: a UTF8-char becomes one code point, anything else an error. */
  lemma FrontDecodes(bs: seq<byte>)
    requires bs != []
    ensures var n := CharLength(bs);
            if n > 0 then Run(IDLE, bs[..n]).0 == IDLE && |Run(IDLE, bs[..n]).1| == 1 && Run(IDLE, bs[..n]).1[0].Point?
            else Bad in Decode(bs)
  {
    hide CharLength;
    var s := Lead(bs[0]).0;
    if s == IDLE {
      OneByteChar(bs);
      assert bs[..1][1..] == [];
    } else {
      LeadOpensChar(bs);
      var rest := bs[1..];
      if |rest| >= s.needed && Completes(s, rest[..s.needed]) {
        CompletingRun(s, rest[..s.needed]);
        assert bs[..s.needed + 1][1..] == rest[..s.needed];
      } else {
        BreakingRun(s, rest);
      }
    }
  }

  lemma OneByteChar(bs: seq<byte>)
    requires bs != [] && Lead(bs[0]).0 == IDLE
    ensures CharLength(bs) == if bs[0] <= 0x7F then 1 else 0
  {
  }

  /** The decoder reports an error exactly when the grammar has no derivation. */
  lemma {:induction false} DecodesWithoutError(bs: seq<byte>)
    ensures WellFormed(bs) <==> Bad !in Decode(bs)
    decreases |bs|
  {
    hide CharLength, Utf8Char;
    if bs != [] {
      FrontDecodes(bs);
      var n := CharLength(bs);
      if n > 0 {
        assert bs[..n] + bs[n..] == bs;
        CutDecodes(bs[..n], bs[n..]);
        DecodesWithoutError(bs[n..]);
      }
    }
  }

  // ---------------------------------------------------------------------------------------
  // The encoder: section 3 of RFC 3629
  // ---------------------------------------------------------------------------------------

  predicate ScalarValue(cp: int) {
    0 <= cp < 0xD800 || 0xE000 <= cp < 0x110000
  }

  type scalar = cp: int | ScalarValue(cp)

  function EncodeScalar(cp: int): seq<byte>
    requires 0 <= cp < 0x110000
  {
    if cp < 0x80 then [cp]
    else if cp < 0x800 then [cp / 64 + 0xC0, cp % 64 + 0x80]
    else if cp < 0x10000 then [cp / 4096 + 0xE0, cp / 64 % 64 + 0x80, cp % 64 + 0x80]
    else [cp / 262144 + 0xF0, cp / 4096 % 64 + 0x80, cp / 64 % 64 + 0x80, cp % 64 + 0x80]
  }

  lemma Sextets(cp: nat)
    ensures cp == cp / 64 * 64 + cp % 64
    ensures cp / 64 == cp / 4096 * 64 + cp / 64 % 64
    ensures cp / 4096 == cp / 262144 * 64 + cp / 4096 % 64
  {
    assert cp / 64 / 64 == cp / 4096 && cp / 4096 / 64 == cp / 262144;
  }

  lemma EncodeScalarIsChar(cp: int)
    requires ScalarValue(cp)
    ensures Utf8Char(EncodeScalar(cp))
  {
    Sextets(cp);
    if cp >= 0x800 {
      var a, b, c, d := cp / 262144, cp / 4096 % 64, cp / 64 % 64, cp % 64;
      if cp < 0x10000 { ThreeBytes(cp / 4096, c, d, cp); } else { FourBytes(a, b, c, d, cp); }
    }
  }

  lemma ThreeBytes(a: nat, b: nat, c: nat, cp: int)
    requires cp == (a * 64 + b) * 64 + c && b < 64 && c < 64 && 0x800 <= cp < 0x10000 && ScalarValue(cp)
    ensures a < 16 && Utf8Char([a + 0xE0, b + 0x80, c + 0x80])
  {
  }

  lemma FourBytes(a: nat, b: nat, c: nat, d: nat, cp: int)
    requires cp == ((a * 64 + b) * 64 + c) * 64 + d && b < 64 && c < 64 && d < 64 && 0x10000 <= cp < 0x110000
    ensures a < 5 && Utf8Char([a + 0xF0, b + 0x80, c + 0x80, d + 0x80])
  {
  }

  /** Decoding undoes the encoding of a scalar value. */
  lemma EncodeScalarDecodes(cp: int)
    requires ScalarValue(cp)
    ensures Run(IDLE, EncodeScalar(cp)) == (IDLE, [Point(cp)])
  {
    hide Run, Fold, EncodeScalar;
    var c := EncodeScalar(cp);
    EncodedForm(cp);
    RunFirst(c);
    if cp >= 0x80 {
      CompletingRun(Lead(c[0]).0, c[1..]);
    }
  }

  lemma RunFirst(c: seq<byte>)
    requires c != []
    ensures if Lead(c[0]).0 != IDLE then Run(IDLE, c) == Run(Lead(c[0]).0, c[1..])
            else |c| == 1 ==> Run(IDLE, c) == (IDLE, Lead(c[0]).1)
  {
    hide Lead;
    var (s1, o1) := Lead(c[0]);
    assert [] + Run(s1, c[1..]).1 == Run(s1, c[1..]).1;
    assert o1 + [] == o1;
  }

  lemma EncodedForm(cp: int)
    requires ScalarValue(cp)
    ensures var c := EncodeScalar(cp);
            c != [] && var s := Lead(c[0]).0;
            if cp < 0x80 then c == [cp] else Completes(s, c[1..]) && Fold(s.point, c[1..]) == cp
  {
    if 0x80 <= cp < 0x800 {
      EncodedForm2(cp);
    } else if 0x800 <= cp < 0x10000 {
      EncodedForm3(cp);
    } else if cp >= 0x10000 {
      EncodedForm4(cp);
    }
  }

  lemma EncodedForm2(cp: int)
    requires 0x80 <= cp < 0x800
    ensures var c := EncodeScalar(cp); var s := Lead(c[0]).0; Completes(s, c[1..]) && Fold(s.point, c[1..]) == cp
  {
    hide Fold;
    Sextets(cp);
    FoldOf(cp / 64, EncodeScalar(cp)[1..]);
  }

  lemma EncodedForm3(cp: int)
    requires 0x800 <= cp < 0xD800 || 0xE000 <= cp < 0x10000
    ensures var c := EncodeScalar(cp); var s := Lead(c[0]).0; Completes(s, c[1..]) && Fold(s.point, c[1..]) == cp
  {
    hide Fold;
    Sextets(cp);
    FoldOf(cp / 4096, EncodeScalar(cp)[1..]);
  }

  lemma EncodedForm4(cp: int)
    requires 0x10000 <= cp < 0x110000
    ensures var c := EncodeScalar(cp); var s := Lead(c[0]).0; Completes(s, c[1..]) && Fold(s.point, c[1..]) == cp
  {
    hide Fold;
    Sextets(cp);
    FoldOf(cp / 262144, EncodeScalar(cp)[1..]);
  }

  lemma FoldOf(point: int, c: seq<byte>)
    requires 1 <= |c| <= 3
    ensures Fold(point, c) ==
            if |c| == 1 then point * 64 - 0x80 + c[0]
            else if |c| == 2 then (point * 64 - 0x80 + c[0]) * 64 - 0x80 + c[1]
            else ((point * 64 - 0x80 + c[0]) * 64 - 0x80 + c[1]) * 64 - 0x80 + c[2]
    decreases |c|
  {
    if |c| > 1 {
      FoldOf(point * 64 - 0x80 + c[0], c[1..]);
    }
  }
}
