/** What a bounded output stream keeps of the strings written to it
    (crates/runtime/src/builtin/execution.rs:90-120). */
module OutputCapture {
  import opened Utf8

  /** What a job writes: Rust strings are always UTF-8. */
  type text = t: seq<byte> | WellFormed(t)

  // ---------------------------------------------------------------------------------------
  // What a stream captures of the strings written to it
  // ---------------------------------------------------------------------------------------

  predicate CharBoundary(data: seq<byte>, n: nat)
    requires n <= |data|
  {
    n == 0 || n == |data| || !Tail(data[n])
  }

  lemma TailsFollow(bs: seq<byte>, n: nat)
    requires 0 < n < CharLength(bs)
    ensures Tail(bs[n])
  {
    var c := bs[..CharLength(bs)];
    assert Utf8Char(c) && c[n] == bs[n];
  }

  lemma FrontOfFront(bs: seq<byte>, n: nat, c: nat)
    requires c <= n <= |bs|
    ensures bs[..n][..c] == bs[..c] && bs[..n][c..] == bs[c..][..n - c]
  {
  }

  /** Character boundaries are exactly the ends of the well-formed prefixes. */
  lemma {:induction false} BoundaryIsWhole(data: seq<byte>, n: nat)
    requires WellFormed(data) && n <= |data|
    ensures CharBoundary(data, n) <==> WellFormed(data[..n])
    decreases |data|
  {
    hide Utf8Char, Tail, CharLength;
    if n == |data| {
      assert data[..n] == data;
    } else if n > 0 {
      var c := CharLength(data);
      if n < c {
        TailsFollow(data, n);
        if WellFormed(data[..n]) {
          var m := CharLength(data[..n]);
          FrontOfFront(data, n, m);
          CharLengthUnique(data, data[..m]);
        }
      } else {
        FrontOfFront(data, n, c);
        CharLengthUnique(data[..n], data[..c]);
        BoundaryIsWhole(data[c..], n - c);
        assert data[n] == data[c..][n - c];
        if n == c { NoTailFirst(data[c..]); }
      }
    }
  }

  lemma NoTailFirst(bs: seq<byte>)
    requires bs != [] && WellFormed(bs)
    ensures !Tail(bs[0])
  {
    var c := bs[..CharLength(bs)];
    assert Utf8Char(c) && c[0] == bs[0];
  }

  /** How many bytes of a string are taken when `room` are left. */
  function Fit(data: seq<byte>, room: nat): (n: nat)
    ensures n <= |data| && n <= room
  {
    CutBack(data, if |data| < room then |data| else room)
  }

  function CutBack(data: seq<byte>, n: nat): (r: nat)
    requires n <= |data|
    ensures r <= n && CharBoundary(data, r)
    ensures forall m :: r < m <= n ==> !CharBoundary(data, m)
  {
    if n == 0 || CharBoundary(data, n) then n else CutBack(data, n - 1)
  }

  /** The longest prefix made of whole characters that fits. */
  lemma FitIsLongest(data: seq<byte>, room: nat)
    requires WellFormed(data)
    ensures WellFormed(data[..Fit(data, room)])
    ensures forall m :: Fit(data, room) < m <= room && m <= |data| ==> !WellFormed(data[..m])
    ensures Fit(data, room) == |data| <==> |data| <= room
  {
    hide CharBoundary, WellFormed;
    BoundaryIsWhole(data, Fit(data, room));
    forall m | Fit(data, room) < m <= room && m <= |data| ensures !WellFormed(data[..m]) {
      BoundaryIsWhole(data, m);
    }
    WholeIsBoundary(data);
  }

  lemma WholeIsBoundary(data: seq<byte>)
    ensures CharBoundary(data, |data|)
  {
  }

  /** The chunks a stream of at most `max` bytes takes of successive writes. */
  function Capture(max: nat, writes: seq<text>): (r: seq<seq<byte>>)
  {
    if writes == [] then [] else
    var before, last := Capture(max, writes[..|writes| - 1]), writes[|writes| - 1];
    var n := Fit(last, Room(max, before));
    if n == 0 then before else before + [last[..n]]
  }

  function Room(max: nat, chunks: seq<seq<byte>>): nat {
    if |Flatten(chunks)| < max then max - |Flatten(chunks)| else 0
  }

  /** Some write did not fit. */
  predicate Lost(max: nat, writes: seq<text>) {
    writes != [] && (Lost(max, writes[..|writes| - 1])
                     || |writes[|writes| - 1]| > Room(max, Capture(max, writes[..|writes| - 1])))
  }

  /** The bound holds, every chunk is non-empty and whole, and bytes are missing exactly when a write
      did not fit; otherwise everything written is there in order. */
  lemma {:induction false} CaptureIsBounded(max: nat, writes: seq<text>)
    ensures var chunks := Capture(max, writes);
            && |Flatten(chunks)| <= max
            && (forall i :: 0 <= i < |chunks| ==> chunks[i] != [] && WellFormed(chunks[i]))
            && (if Lost(max, writes) then |Flatten(chunks)| < |Flatten(writes)| else Flatten(chunks) == Flatten(writes))
  {
    hide Fit, WellFormed, Flatten;
    if writes == [] {
      NothingCaptured();
    } else {
      var front, last := writes[..|writes| - 1], writes[|writes| - 1];
      CaptureIsBounded(max, front);
      var before := Capture(max, front);
      var n := Fit(last, Room(max, before));
      FitIsLongest(last, Room(max, before));
      assert writes == front + [last];
      FlattenSnoc<byte>(front, last);
      FlattenSnoc(before, last[..n]);
      if n == |last| { assert last[..n] == last; }
      if n == 0 { assert Flatten(before) + last[..0] == Flatten(before); }
    }
  }

  lemma NothingCaptured()
    ensures Flatten<byte>([]) == []
  {
  }

  /** When every character is one byte, truncation keeps exactly the first `max` bytes. */
  lemma {:induction false} OneByteTruncation(max: nat, writes: seq<text>)
    requires forall i, j :: 0 <= i < |writes| && 0 <= j < |writes[i]| ==> writes[i][j] < 0x80
    ensures Flatten(Capture(max, writes))
            == Flatten(writes)[..if |Flatten(writes)| < max then |Flatten(writes)| else max]
  {
    hide Flatten, WellFormed;
    if writes == [] {
      NothingCaptured();
    } else {
      var front, last := writes[..|writes| - 1], writes[|writes| - 1];
      forall i, j | 0 <= i < |front| && 0 <= j < |front[i]| ensures front[i][j] < 0x80 {
        assert front[i] == writes[i];
      }
      OneByteTruncation(max, front);
      var before := Capture(max, front);
      var n := Fit(last, Room(max, before));
      assert n == if |last| < Room(max, before) then |last| else Room(max, before);
      assert writes == front + [last];
      FlattenSnoc<byte>(front, last);
      FlattenSnoc(before, last[..n]);
    }
  }

  /** In general the captured text is a prefix of the written text exactly when nothing is captured
      after the first write that did not fit. */
  predicate StopsAtLoss(max: nat, writes: seq<text>) {
    writes == [] ||
    (var front, last := writes[..|writes| - 1], writes[|writes| - 1];
     StopsAtLoss(max, front) && (Lost(max, front) ==> Fit(last, Room(max, Capture(max, front))) == 0))
  }

  lemma TruncationIsPrefix(max: nat, writes: seq<text>)
    ensures Flatten(Capture(max, writes)) <= Flatten(writes) <==> StopsAtLoss(max, writes)
  {
    CaptureIsBounded(max, writes);
    if StopsAtLoss(max, writes) {
      if Lost(max, writes) { WhatWasCut(max, writes); }
    } else {
      SkippedMeansDifferent(max, writes);
    }
  }

  /** What was captured, and the rest begins with a character too wide for the space left. */
  ghost predicate CutBefore(max: nat, chunks: seq<seq<byte>>, all: seq<byte>) {
    var kept := Flatten(chunks);
    kept <= all && CharLength(all[|kept|..]) > Room(max, chunks)
  }

  lemma {:induction false} WhatWasCut(max: nat, writes: seq<text>)
    requires StopsAtLoss(max, writes) && Lost(max, writes)
    ensures CutBefore(max, Capture(max, writes), Flatten(writes))
  {
    hide Fit, WellFormed, Flatten, CharLength, Utf8Char, Tail, CharBoundary;
    var front, last := writes[..|writes| - 1], writes[|writes| - 1];
    var before := Capture(max, front);
    var n := Fit(last, Room(max, before));
    assert writes == front + [last];
    FlattenSnoc<byte>(front, last);
    if Lost(max, front) {
      WhatWasCut(max, front);
      CutStays(max, before, Flatten(front), last);
    } else {
      CaptureIsBounded(max, front);
      CutHere(max, before, last);
    }
  }

  lemma CutStays(max: nat, chunks: seq<seq<byte>>, all: seq<byte>, more: seq<byte>)
    requires CutBefore(max, chunks, all)
    ensures CutBefore(max, chunks, all + more)
  {
    hide Flatten, CharLength, Utf8Char, Tail;
    var k := |Flatten(chunks)|;
    var rest := all[k..];
    assert (all + more)[k..] == rest + more;
    CharLengthUnique(rest + more, rest[..CharLength(rest)]);
  }

  lemma CutHere(max: nat, before: seq<seq<byte>>, last: text)
    requires |Flatten(before)| <= max && |last| > Room(max, before)
    ensures var n := Fit(last, Room(max, before));
            CutBefore(max, if n == 0 then before else before + [last[..n]], Flatten(before) + last)
  {
    hide Fit, WellFormed, Flatten, CharLength, Utf8Char, Tail, CharBoundary;
    var n := Fit(last, Room(max, before));
    FlattenSnoc(before, last[..n]);
    CutCharIsWide(last, Room(max, before));
    assert (Flatten(before) + last)[|Flatten(before)| + n..] == last[n..];
    assert Flatten(before) + last[..n] <= Flatten(before) + last;
  }

  lemma {:induction false} SkippedMeansDifferent(max: nat, writes: seq<text>)
    requires !StopsAtLoss(max, writes)
    ensures !(Flatten(Capture(max, writes)) <= Flatten(writes))
  {
    hide Fit, WellFormed, Flatten, CharLength, Utf8Char, Tail, CharBoundary;
    var front, last := writes[..|writes| - 1], writes[|writes| - 1];
    var before := Capture(max, front);
    var n := Fit(last, Room(max, before));
    assert writes == front + [last];
    FlattenSnoc<byte>(front, last);
    FlattenSnoc(before, last[..n]);
    CaptureIsBounded(max, front);
    if !StopsAtLoss(max, front) {
      SkippedMeansDifferent(max, front);
      NotPrefixGrows(Flatten(before), Flatten(front), if n == 0 then [] else last[..n], last);
      assert n == 0 ==> Flatten(before) + [] == Flatten(before);
    } else {
      WhatWasCut(max, front);
      var k := |Flatten(before)|;
      var rest := Flatten(front)[k..];
      FitIsLongest(last, Room(max, before));
      WholePrefixHoldsChar(last, n);
      if rest[0] == last[0] { LeadGivesLength(rest, last); }
      assert (Flatten(before) + last[..n])[k] == last[0];
      assert (Flatten(front) + last)[k] == rest[0];
    }
  }

  lemma NotPrefixGrows(a: seq<byte>, b: seq<byte>, c: seq<byte>, d: seq<byte>)
    requires |a| <= |b| && !(a <= b)
    ensures !(a + c <= b + d)
  {
    var k :| 0 <= k < |a| && a[k] != b[k];
    assert (a + c)[k] != (b + d)[k];
  }

  /** The first byte of a character determines its length. */
  lemma LeadGivesLength(a: seq<byte>, b: seq<byte>)
    requires CharLength(a) > 0 && CharLength(b) > 0 && a[0] == b[0]
    ensures CharLength(a) == CharLength(b)
  {
    var c, d := a[..CharLength(a)], b[..CharLength(b)];
    assert Utf8Char(c) && Utf8Char(d) && c[0] == d[0];
  }

  lemma WholePrefixHoldsChar(bs: seq<byte>, n: nat)
    requires 0 < n <= |bs| && WellFormed(bs[..n])
    ensures 0 < CharLength(bs) <= n
  {
    hide CharLength, Utf8Char, Tail;
    FrontOfFront(bs, n, CharLength(bs[..n]));
    CharLengthUnique(bs, bs[..CharLength(bs[..n])]);
  }

  /** Cutting a well-formed sequence at a character boundary leaves well-formed halves. */
  lemma {:induction false} RestIsWhole(data: seq<byte>, n: nat)
    requires n <= |data| && WellFormed(data) && WellFormed(data[..n])
    ensures WellFormed(data[n..])
    decreases n
  {
    hide CharLength, Utf8Char, Tail;
    if n == 0 {
      assert data[0..] == data;
    } else {
      WholePrefixHoldsChar(data, n);
      var c := CharLength(data);
      CharLengthUnique(data[..n], data[..c]);
      FrontOfFront(data, n, c);
      RestIsWhole(data[c..], n - c);
      assert data[c..][n - c..] == data[n..];
    }
  }

  lemma {:induction false} WholeSum(a: seq<byte>, b: seq<byte>)
    requires WellFormed(a) && WellFormed(b)
    ensures WellFormed(a + b)
    decreases |a|
  {
    hide CharLength, Utf8Char, Tail;
    if a == [] {
      assert a + b == b;
    } else {
      var c := CharLength(a);
      CharLengthUnique(a + b, a[..c]);
      WholeSum(a[c..], b);
      assert (a + b)[c..] == a[c..] + b;
    }
  }

  /** The first character left out would not have fitted. */
  lemma CutCharIsWide(data: seq<byte>, room: nat)
    requires WellFormed(data) && |data| > room
    ensures CharLength(data[Fit(data, room)..]) > room - Fit(data, room)
  {
    hide CharLength, Fit, Utf8Char, Tail, CharBoundary, CutBack;
    FitIsLongest(data, room);
    var n := Fit(data, room);
    RestIsWhole(data, n);
    var rest := data[n..];
    var c := CharLength(rest);
    OneChar(rest);
    WholeSum(data[..n], rest[..c]);
    TakeMore(data, n, c);
  }

  lemma TakeMore(data: seq<byte>, n: nat, c: nat)
    requires n + c <= |data|
    ensures data[..n] + data[n..][..c] == data[..n + c]
  {
  }

  lemma OneChar(bs: seq<byte>)
    requires bs != [] && WellFormed(bs)
    ensures CharLength(bs) > 0 && WellFormed(bs[..CharLength(bs)])
  {
    hide CharLength, Utf8Char, Tail;
    var c := bs[..CharLength(bs)];
    CharLengthUnique(c, c);
    assert c[|c|..] == [];
  }

  /** The condition can fail: a character too wide for the space left is dropped, a later and
      narrower one is kept. */
  lemma TruncationCanSkip()
    ensures var writes: seq<text> := [[0x61, 0x61], [0xC3, 0xA9], [0x62]];
            Flatten(Capture(3, writes)) == [0x61, 0x61, 0x62] && !(Flatten(Capture(3, writes)) <= Flatten(writes))
  {
    hide Fit, Flatten, Capture;
    var a: text, b: text, c: text := [0x61, 0x61], [0xC3, 0xA9], [0x62];
    FitsHere(a, b, c);
    CaptureSnoc(3, [], a);
    CaptureSnoc(3, [a], b);
    CaptureSnoc(3, [a, b], c);
    assert [] + [a] == [a] && [a] + [b] == [a, b] && [a, b] + [c] == [a, b, c];
    TwoAndThree([], a, c);
    TwoAndThree(a, b, c);
    assert [] + [a] == [a] && [a] + [c] == [a, c];
    assert Capture(3, [a, b, c]) == [a, c];
    assert a + c == [0x61, 0x61, 0x62];
    assert (a + c)[2] == 0x62 && (a + b + c)[2] == 0xC3;
  }

  lemma CaptureSnoc(max: nat, front: seq<text>, last: text)
    ensures Capture(max, []) == []
    ensures var before := Capture(max, front);
            var n := Fit(last, Room(max, before));
            Capture(max, front + [last]) == if n == 0 then before else before + [last[..n]]
  {
    assert (front + [last])[..|front|] == front;
  }

  lemma FitsHere(a: seq<byte>, b: seq<byte>, c: seq<byte>)
    requires a == [0x61, 0x61] && b == [0xC3, 0xA9] && c == [0x62]
    ensures Fit(a, 3) == 2 && a[..2] == a && Fit(b, 1) == 0 && Fit(c, 1) == 1 && c[..1] == c
    ensures Flatten([a]) == a
  {
    assert [a][1..] == [];
  }

  lemma TwoAndThree(a: seq<byte>, b: seq<byte>, c: seq<byte>)
    ensures Flatten<byte>([]) == []
    ensures Flatten([b, c]) == b + c && Flatten([a, b, c]) == a + b + c
  {
    assert [b, c][1..] == [c] && [c][1..] == [] && [a, b, c][1..] == [b, c];
    assert Flatten([c]) == c;
    assert a + (b + c) == a + b + c;
  }
}
