/** UTF-16 to UTF-8 under a byte budget, and UTF-8 validation
    (crates/runtime/src/builtin/buffer.js:2258-2336 and 2637-2672). */
module Utf8Buffer {
  import opened Utf8

  /** A UTF-16 code unit, as `charCodeAt` returns it. */
  type unit = u: int | 0 <= u < 0x10000

  predicate IsLead(u: unit) { 0xD800 <= u <= 0xDBFF }
  predicate IsTrail(u: unit) { 0xDC00 <= u <= 0xDFFF }

  function PairScalar(lead: unit, trail: unit): (cp: int)
    requires IsLead(lead) && IsTrail(trail)
    ensures 0x10000 <= cp < 0x110000
  {
    (lead - 0xD800) * 1024 + (trail - 0xDC00) + 0x10000
  }

  // ---------------------------------------------------------------------------------------
  // Reference: the scalar values of a string, unpaired surrogates replaced by U+FFFD
  // ---------------------------------------------------------------------------------------

  function Scalars(s: seq<unit>): seq<scalar> {
    if s == [] then []
    else if IsLead(s[0]) && |s| > 1 && IsTrail(s[1]) then [PairScalar(s[0], s[1])] + Scalars(s[2..])
    else [if IsLead(s[0]) || IsTrail(s[0]) then 0xFFFD else s[0]] + Scalars(s[1..])
  }

  function EncodeAll(scalars: seq<scalar>): seq<seq<byte>> {
    if scalars == [] then [] else [EncodeScalar(scalars[0])] + EncodeAll(scalars[1..])
  }

  predicate WellPaired(s: seq<unit>) {
    s == [] || if IsLead(s[0]) then |s| > 1 && IsTrail(s[1]) && WellPaired(s[2..])
               else !IsTrail(s[0]) && WellPaired(s[1..])
  }

  /** UTF-16: the code units of a scalar value sequence. */
  function ToUnits(scalars: seq<scalar>): seq<unit> {
    if scalars == [] then [] else ScalarUnits(scalars[0]) + ToUnits(scalars[1..])
  }

  function ScalarUnits(cp: int): seq<unit>
    requires ScalarValue(cp)
  {
    if cp < 0x10000 then [cp] else [0xD800 + (cp - 0x10000) / 1024, 0xDC00 + (cp - 0x10000) % 1024]
  }

  // ---------------------------------------------------------------------------------------
  // What the encoder emits without a budget, one piece per code point
  // ---------------------------------------------------------------------------------------

  const FFFD: seq<byte> := [0xEF, 0xBF, 0xBD]

  /** The pieces for the rest of the string, with `lead` as the pending lead surrogate (0: none). */
  function Pieces(s: seq<unit>, lead: unit): seq<seq<byte>>
    requires lead == 0 || IsLead(lead)
  {
    if s == [] then []
    else if IsLead(s[0]) || IsTrail(s[0]) then
      if lead == 0 then
        if IsLead(s[0]) && |s| > 1 then Pieces(s[1..], s[0]) else [FFFD] + Pieces(s[1..], 0)
      else if IsLead(s[0]) then [FFFD] + Pieces(s[1..], s[0])
      else [EncodeScalar(PairScalar(lead, s[0]))] + Pieces(s[1..], 0)
    else
      (if lead != 0 then [FFFD] else []) + [EncodeScalar(s[0])] + Pieces(s[1..], 0)
  }

  /** The string ends in two lead surrogates: the encoder emits nothing for the last one. */
  predicate LosesLast(s: seq<unit>) {
    |s| >= 2 && IsLead(s[|s| - 2]) && IsLead(s[|s| - 1])
  }

  lemma FffdIsEncoded()
    ensures FFFD == EncodeScalar(0xFFFD)
  {
  }

  /** With a pending lead the pieces are those of the string with that lead in front, except
      that a lead pending at the end of the string is lost. */
  lemma {:induction false} PiecesAfterLead(s: seq<unit>, lead: unit)
    requires IsLead(lead)
    ensures EncodeAll(Scalars([lead] + s)) == Pieces(s, lead) + if s == [] || LosesLast([lead] + s) then [FFFD] else []
    decreases |s|, 0
  {
    hide EncodeScalar, PairScalar, Scalars, EncodeAll;
    ScalarsOfLead(lead, s);
    if s != [] {
      if IsLead(s[0]) {
        PiecesAfterLead(s[1..], s[0]);
        assert [s[0]] + s[1..] == s;
      } else {
        PiecesMatch(s[1..]);
        LosesLastDrop(lead, s);
        if !IsTrail(s[0]) {
          assert Pieces(s, lead) == [FFFD, EncodeScalar(s[0])] + Pieces(s[1..], 0);
        }
      }
    }
  }

  lemma LosesLastDrop(first: unit, s: seq<unit>)
    requires s != [] && !IsLead(s[0])
    ensures LosesLast([first] + s) <==> LosesLast(s[1..])
  {
  }

  /** What a lead surrogate in front encodes to. */
  lemma ScalarsOfLead(lead: unit, s: seq<unit>)
    requires IsLead(lead)
    ensures EncodeAll(Scalars([lead] + s)) ==
            if s != [] && IsTrail(s[0]) then [EncodeScalar(PairScalar(lead, s[0]))] + EncodeAll(Scalars(s[1..]))
            else if s == [] then [FFFD]
            else if IsLead(s[0]) then [FFFD] + EncodeAll(Scalars(s))
            else [FFFD, EncodeScalar(s[0])] + EncodeAll(Scalars(s[1..]))
  {
    hide EncodeScalar, PairScalar;
    FffdIsEncoded();
    var all := [lead] + s;
    assert all[1..] == s && (s != [] ==> all[2..] == s[1..]);
  }

  /** The unbudgeted output is the encoding of the string with unpaired surrogates replaced,
      minus one final replacement when the string ends in two lead surrogates. */
  lemma {:induction false} PiecesMatch(s: seq<unit>)
    ensures EncodeAll(Scalars(s)) == Pieces(s, 0) + if LosesLast(s) then [FFFD] else []
    decreases |s|, 1
  {
    hide EncodeScalar, PairScalar, Scalars, EncodeAll, Pieces, LosesLast;
    if s == [] {
      NoPieces();
    } else if IsLead(s[0]) && |s| > 1 {
      PiecesAfterLead(s[1..], s[0]);
      PendingLead(s);
    } else {
      PiecesMatch(s[1..]);
      FirstAlone(s);
    }
  }

  lemma NoPieces()
    ensures EncodeAll(Scalars([])) == [] == Pieces([], 0) && !LosesLast([])
  {
  }

  lemma PendingLead(s: seq<unit>)
    requires |s| > 1 && IsLead(s[0])
    ensures [s[0]] + s[1..] == s && Pieces(s, 0) == Pieces(s[1..], s[0])
  {
  }

  /** The first unit stands alone: a scalar value, or a surrogate that is replaced. */
  lemma FirstAlone(s: seq<unit>)
    requires s != [] && !(IsLead(s[0]) && |s| > 1)
    ensures var piece := if IsLead(s[0]) || IsTrail(s[0]) then FFFD else EncodeScalar(s[0]);
            && EncodeAll(Scalars(s)) == [piece] + EncodeAll(Scalars(s[1..]))
            && Pieces(s, 0) == [piece] + Pieces(s[1..], 0)
    ensures LosesLast(s) <==> LosesLast(s[1..])
  {
    hide EncodeScalar, Scalars, EncodeAll, Pieces, LosesLast;
    LosesLastAlone(s);
    FffdIsEncoded();
    ScalarAlone(s);
    PieceAlone(s);
    EncodeFirst(if IsLead(s[0]) || IsTrail(s[0]) then 0xFFFD else s[0], Scalars(s[1..]));
  }

  lemma LosesLastAlone(s: seq<unit>)
    requires s != [] && !(IsLead(s[0]) && |s| > 1)
    ensures LosesLast(s) <==> LosesLast(s[1..])
  {
  }

  lemma ScalarAlone(s: seq<unit>)
    requires s != [] && !(IsLead(s[0]) && |s| > 1)
    ensures Scalars(s) == [if IsLead(s[0]) || IsTrail(s[0]) then 0xFFFD else s[0]] + Scalars(s[1..])
  {
  }

  lemma PieceAlone(s: seq<unit>)
    requires s != [] && !(IsLead(s[0]) && |s| > 1)
    ensures Pieces(s, 0) == [if IsLead(s[0]) || IsTrail(s[0]) then FFFD else EncodeScalar(s[0])] + Pieces(s[1..], 0)
  {
    hide EncodeScalar;
    if !IsLead(s[0]) && !IsTrail(s[0]) {
      assert [] + [EncodeScalar(s[0])] + Pieces(s[1..], 0) == [EncodeScalar(s[0])] + Pieces(s[1..], 0);
    }
  }

  lemma EncodeFirst(first: int, rest: seq<scalar>)
    requires ScalarValue(first)
    ensures EncodeAll([first] + rest) == [EncodeScalar(first)] + EncodeAll(rest)
  {
    assert ([first] + rest)[1..] == rest;
  }

  lemma {:induction false} PiecesAreChars(s: seq<unit>, lead: unit)
    requires lead == 0 || IsLead(lead)
    ensures forall i :: 0 <= i < |Pieces(s, lead)| ==> Utf8Char(Pieces(s, lead)[i])
    decreases |s|
  {
    hide Utf8Char, EncodeScalar, PairScalar;
    if s != [] {
      PiecesAreChars(s[1..], 0);
      FffdIsEncoded();
      EncodeScalarIsChar(0xFFFD);
      if IsLead(s[0]) {
        PiecesAreChars(s[1..], s[0]);
      } else if !IsTrail(s[0]) {
        EncodeScalarIsChar(s[0]);
      } else if lead != 0 {
        EncodeScalarIsChar(PairScalar(lead, s[0]));
      }
    }
  }

  // ---------------------------------------------------------------------------------------
  // Strings without unpaired surrogates: encoding then decoding gives the string back
  // ---------------------------------------------------------------------------------------

  lemma {:induction false} WellPairedUnits(s: seq<unit>)
    requires WellPaired(s)
    ensures ToUnits(Scalars(s)) == s && !LosesLast(s)
    decreases |s|
  {
    hide PairScalar, ScalarUnits;
    if s != [] {
      if IsLead(s[0]) {
        WellPairedUnits(s[2..]);
        PairUnits(s[0], s[1]);
      } else {
        WellPairedUnits(s[1..]);
        PlainUnits(s[0]);
      }
    }
  }

  lemma PairUnits(lead: unit, trail: unit)
    requires IsLead(lead) && IsTrail(trail)
    ensures ScalarUnits(PairScalar(lead, trail)) == [lead, trail]
  {
  }

  lemma PlainUnits(u: unit)
    requires !IsLead(u) && !IsTrail(u)
    ensures ScalarUnits(u) == [u]
  {
  }

  /** The code points a decoder without errors emits. */
  function Points(scalars: seq<scalar>): seq<Item> {
    if scalars == [] then [] else [Point(scalars[0])] + Points(scalars[1..])
  }

  lemma {:induction false} EncodeAllDecodes(scalars: seq<scalar>)
    ensures Decode(Flatten(EncodeAll(scalars))) == Points(scalars)
  {
    hide Run, EncodeScalar;
    RunNothing(IDLE);
    if scalars != [] {
      var c, rest := EncodeScalar(scalars[0]), Flatten(EncodeAll(scalars[1..]));
      EncodeAllDecodes(scalars[1..]);
      EncodeScalarDecodes(scalars[0]);
      CutDecodes(c, rest);
      assert Flatten(EncodeAll(scalars)) == c + rest;
    }
  }

  /** Round trip: the unbudgeted encoding of a well-paired string decodes to that string. */
  lemma Utf8RoundTrip(s: seq<unit>)
    requires WellPaired(s)
    ensures Flatten(Pieces(s, 0)) == Flatten(EncodeAll(Scalars(s)))
    ensures Decode(Flatten(Pieces(s, 0))) == Points(Scalars(s)) && ToUnits(Scalars(s)) == s
  {
    hide Decode, Points, EncodeAll, Scalars, Pieces, ToUnits;
    WellPairedUnits(s);
    PiecesMatch(s);
    assert Pieces(s, 0) + [] == Pieces(s, 0);
    EncodeAllDecodes(Scalars(s));
  }

  // ---------------------------------------------------------------------------------------
  // The encoder
  // ---------------------------------------------------------------------------------------

  /** `units` of the source: absent or 0 means no limit; it keeps falling after a miss. */
  datatype Budget = Infinity | Units(n: int)

  function BudgetOf(units: nat): Budget {
    if units == 0 then Infinity else Units(units)
  }

  function Spend(b: Budget, k: int): Budget {
    if b.Infinity? then b else Units(b.n - k)
  }

  predicate Left(b: Budget) {
    b.Infinity? || b.n >= 0
  }

  /** The first n pieces fit in the budget and one more does not. */
  ghost predicate BestPrefix(pieces: seq<seq<byte>>, n: nat, budget: Budget) {
    && n <= |pieces| && Left(Spend(budget, |Flatten(pieces[..n])|))
    && (n < |pieces| ==> !Left(Spend(budget, |Flatten(pieces[..n + 1])|)))
  }

  lemma {:induction false} PrefixGrows(pieces: seq<seq<byte>>, m: nat, n: nat)
    requires m <= n <= |pieces|
    ensures |Flatten(pieces[..m])| <= |Flatten(pieces[..n])|
    decreases n
  {
    if m < n {
      PrefixGrows(pieces, m, n - 1);
      assert pieces[..n] == pieces[..n - 1] + [pieces[n - 1]];
      FlattenSnoc(pieces[..n - 1], pieces[n - 1]);
    }
  }

  /** No longer prefix of whole code points fits. */
  lemma {:induction false} BestPrefixIsLongest(pieces: seq<seq<byte>>, n: nat, budget: Budget, m: nat)
    requires BestPrefix(pieces, n, budget) && m <= |pieces| && Left(Spend(budget, |Flatten(pieces[..m])|))
    ensures m <= n
  {
    if m > n {
      PrefixGrows(pieces, n + 1, m);
    }
  }

  /** Progress of the loop: n pieces are out and `rest` is to come, or the budget is exhausted. */
  ghost predicate Encoding(pieces: seq<seq<byte>>, n: nat, bytes: seq<byte>, budget: Budget, units: Budget,
      rest: seq<seq<byte>>) {
    && n <= |pieces| && bytes == Flatten(pieces[..n]) && Left(Spend(budget, |bytes|))
    && if Left(units) then pieces[n..] == rest && units == Spend(budget, |bytes|)
       else n < |pieces| && !Left(Spend(budget, |Flatten(pieces[..n + 1])|))
  }

  lemma Emit(pieces: seq<seq<byte>>, n: nat, bytes: seq<byte>, budget: Budget, units: Budget, piece: seq<byte>,
      rest: seq<seq<byte>>)
    requires Encoding(pieces, n, bytes, budget, units, [piece] + rest)
    ensures var left := Spend(units, |piece|);
            if Left(left) then Encoding(pieces, n + 1, bytes + piece, budget, left, rest)
            else forall other :: Encoding(pieces, n, bytes, budget, left, other)
  {
    if Left(units) {
      assert pieces[n] == pieces[n..][0] == piece && pieces[n + 1..] == pieces[n..][1..] == rest;
      assert pieces[..n + 1] == pieces[..n] + [piece];
      FlattenSnoc(pieces[..n], piece);
    }
  }

  lemma EncodingStarts(pieces: seq<seq<byte>>, budget: Budget)
    requires Left(budget)
    ensures Encoding(pieces, 0, [], budget, budget, pieces)
  {
  }

  lemma EncodingEnds(pieces: seq<seq<byte>>, n: nat, bytes: seq<byte>, budget: Budget, units: Budget,
      rest: seq<seq<byte>>)
    requires Encoding(pieces, n, bytes, budget, units, rest) && (!Left(units) || rest == [])
    ensures BestPrefix(pieces, n, budget) && bytes == Flatten(pieces[..n]) && bytes <= Flatten(pieces)
    ensures if budget.Infinity? then bytes == Flatten(pieces) else |bytes| <= budget.n
  {
    FlattenSplit(pieces, n);
    assert pieces[..|pieces|] == pieces;
  }

  /** The output is the longest prefix of the unbudgeted output that ends on a code point boundary
      and fits in the budget. */
  method Utf8ToBytes(text: seq<unit>, limit: nat) returns (bytes: seq<byte>, ghost n: nat)
    ensures BestPrefix(Pieces(text, 0), n, BudgetOf(limit)) && bytes == Flatten(Pieces(text, 0)[..n])
    ensures bytes <= Flatten(Pieces(text, 0))
            && (if limit == 0 then bytes == Flatten(Pieces(text, 0)) else |bytes| <= limit)
  {
    hide Encoding, Flatten, EncodeScalar;
    var units := BudgetOf(limit);
    ghost var budget, all := units, Pieces(text, 0);
    var length := |text|;
    var leadSurrogate: unit := 0;
    bytes, n := [], 0;
    EncodingStarts(all, budget);
    assert text[0..] == text;
    for i := 0 to length
      invariant leadSurrogate == 0 || IsLead(leadSurrogate)
      invariant Encoding(all, n, bytes, budget, units, Pieces(text[i..], leadSurrogate))
    {
      var codePoint: int := text[i];
      ghost var rest := text[i + 1..];
      assert text[i..][1..] == rest;

      if codePoint > 0xD7FF && codePoint < 0xE000 {
        if leadSurrogate == 0 {
          if codePoint > 0xDBFF || i + 1 == length {
            units, bytes, n := PushReplacement(all, n, bytes, budget, units, Pieces(rest, 0));
            continue;
          }
          leadSurrogate := codePoint;
          continue;
        }
        if codePoint < 0xDC00 {
          units, bytes, n := PushReplacement(all, n, bytes, budget, units, Pieces(rest, codePoint));
          leadSurrogate := codePoint;
          continue;
        }
        codePoint := PairScalar(leadSurrogate, codePoint);
      } else if leadSurrogate != 0 {
        assert Pieces(text[i..], leadSurrogate) == [FFFD] + ([EncodeScalar(codePoint)] + Pieces(rest, 0));
        units, bytes, n := PushReplacement(all, n, bytes, budget, units, [EncodeScalar(codePoint)] + Pieces(rest, 0));
      } else {
        assert Pieces(text[i..], leadSurrogate) == [EncodeScalar(codePoint)] + Pieces(rest, 0);
      }
      leadSurrogate := 0;

      var fits;
      units, bytes, n, fits := PushScalar(all, n, bytes, budget, units, codePoint, Pieces(rest, 0));
      if !fits {
        EncodingEnds(all, n, bytes, budget, units, []);
        return;
      }
    }
    assert text[length..] == [];
    EncodingEnds(all, n, bytes, budget, units, []);
  }

  /** The replacement character is skipped, not broken off, when it does not fit. */
  method PushReplacement(ghost all: seq<seq<byte>>, ghost n: nat, bytes: seq<byte>, ghost budget: Budget, units: Budget,
                         ghost rest: seq<seq<byte>>)
    returns (units': Budget, bytes': seq<byte>, ghost n': nat)
    requires Encoding(all, n, bytes, budget, units, [FFFD] + rest)
    ensures Encoding(all, n', bytes', budget, units', rest)
  {
    hide Encoding;
    Emit(all, n, bytes, budget, units, FFFD, rest);
    units', bytes', n' := Spend(units, 3), bytes, n;
    if Left(units') {
      bytes', n' := bytes + [0xEF, 0xBF, 0xBD], n + 1;
    }
  }

  /** The four encoding branches; `fits` is false where the source breaks out of its loop. */
  method PushScalar(ghost all: seq<seq<byte>>, ghost n: nat, bytes: seq<byte>, ghost budget: Budget, units: Budget,
                    codePoint: int, ghost rest: seq<seq<byte>>)
    returns (units': Budget, bytes': seq<byte>, ghost n': nat, fits: bool)
    requires ScalarValue(codePoint) && Encoding(all, n, bytes, budget, units, [EncodeScalar(codePoint)] + rest)
    ensures if fits then Encoding(all, n', bytes', budget, units', rest)
            else !Left(units') && Encoding(all, n', bytes', budget, units', [])
  {
    hide Encoding;
    Emit(all, n, bytes, budget, units, EncodeScalar(codePoint), rest);
    bytes', n' := bytes, n;
    if codePoint < 0x80 {
      units' := Spend(units, 1);
      if !Left(units') { return units', bytes', n', false; }
      bytes' := bytes + [codePoint];
    } else if codePoint < 0x800 {
      units' := Spend(units, 2);
      if !Left(units') { return units', bytes', n', false; }
      bytes' := bytes + [codePoint / 64 + 0xC0, codePoint % 64 + 0x80];
    } else if codePoint < 0x10000 {
      units' := Spend(units, 3);
      if !Left(units') { return units', bytes', n', false; }
      bytes' := bytes + [codePoint / 4096 + 0xE0, codePoint / 64 % 64 + 0x80, codePoint % 64 + 0x80];
    } else {
      units' := Spend(units, 4);
      if !Left(units') { return units', bytes', n', false; }
      bytes' := bytes + [codePoint / 262144 + 0xF0, codePoint / 4096 % 64 + 0x80, codePoint / 64 % 64 + 0x80,
                         codePoint % 64 + 0x80];
    }
    n', fits := n + 1, true;
  }

  // ---------------------------------------------------------------------------------------
  // The validator
  // ---------------------------------------------------------------------------------------

  /** Accepts exactly the byte sequences that derive from UTF8-octets. */
  method IsUtf8(bytes: seq<byte>) returns (valid: bool)
    ensures valid <==> Utf8Octets(bytes)
  {
    hide Utf8Octets;
    WellFormedIsGrammar(bytes);
    var i := 0;
    assert bytes[0..] == bytes;
    while i < |bytes|
      invariant 0 <= i <= |bytes| && (WellFormed(bytes) <==> WellFormed(bytes[i..]))
    {
      ghost var rest := bytes[i..];
      Front(rest);
      ghost var at := i;
      var b := bytes[i];
      if b <= 0x7F {
        i := i + 1;
      } else if 0xC0 <= b <= 0xDF {
        if b < 0xC2 { return false; }
        if i + 1 >= |bytes| { return false; }
        if !Tail(bytes[i + 1]) { return false; }
        i := i + 2;
      } else if 0xE0 <= b <= 0xEF {
        if i + 2 >= |bytes| { return false; }
        var b1, b2 := bytes[i + 1], bytes[i + 2];
        if !Tail(b1) || !Tail(b2) { return false; }
        if b == 0xE0 && b1 < 0xA0 { return false; }
        if b == 0xED && b1 >= 0xA0 { return false; }
        i := i + 3;
      } else if 0xF0 <= b <= 0xF7 {
        if b > 0xF4 { return false; }
        if i + 3 >= |bytes| { return false; }
        var b1, b2, b3 := bytes[i + 1], bytes[i + 2], bytes[i + 3];
        if !Tail(b1) || !Tail(b2) || !Tail(b3) { return false; }
        if b == 0xF0 && b1 < 0x90 { return false; }
        if b == 0xF4 && b1 >= 0x90 { return false; }
        i := i + 4;
      } else {
        return false;
      }
      assert bytes[i..] == rest[i - at..];
    }
    assert bytes[|bytes|..] == [];
    valid := true;
  }

  /** The character at the front, read off the bytes directly. */
  lemma Front(bs: seq<byte>)
    requires bs != []
    ensures CharLength(bs) ==
            if bs[0] <= 0x7F then 1
            else if |bs| >= 2 && Utf8Char([bs[0], bs[1]]) then 2
            else if |bs| >= 3 && Utf8Char([bs[0], bs[1], bs[2]]) then 3
            else if |bs| >= 4 && Utf8Char([bs[0], bs[1], bs[2], bs[3]]) then 4
            else 0
  {
    assert |bs| >= 2 ==> bs[..2] == [bs[0], bs[1]];
    assert |bs| >= 3 ==> bs[..3] == [bs[0], bs[1], bs[2]];
    assert |bs| >= 4 ==> bs[..4] == [bs[0], bs[1], bs[2], bs[3]];
  }

  /** Every output of the encoder, lone surrogates and budgets included, is valid UTF-8. */
  lemma EncoderOutputIsUtf8(text: seq<unit>, n: nat)
    requires n <= |Pieces(text, 0)|
    ensures Utf8Octets(Flatten(Pieces(text, 0)[..n])) && Bad !in Decode(Flatten(Pieces(text, 0)[..n]))
  {
    hide Pieces, Utf8Char, Decode;
    PiecesAreChars(text, 0);
    var pieces := Pieces(text, 0)[..n];
    assert Derivation(pieces, Flatten(pieces));
    WellFormedIsGrammar(Flatten(pieces));
    DecodesWithoutError(Flatten(pieces));
  }
}
