/** The streaming text decoder on its UTF-8 path without a native decoder
    (crates/runtime/src/builtin/encoding.js:44-79 and 133-213, encoding.rs:251-279). */
module TextDecoding {
  import opened Options
  import opened Utf8
  import opened Utf8Replacement

  // ---------------------------------------------------------------------------------------
  // One-shot decoding
  // ---------------------------------------------------------------------------------------

  const BOM: seq<byte> := [0xEF, 0xBB, 0xBF]
  const REPLACEMENT: int := 0xFFFD

  /** The decoded text: errors become U+FFFD. */
  function Text(items: seq<Item>): (t: seq<int>)
    ensures |t| == |items|
  {
    seq(|items|, i requires 0 <= i < |items| => if items[i].Bad? then REPLACEMENT else items[i].cp)
  }

  function StripBom(bs: seq<byte>, ignoreBom: bool): seq<byte> {
    if !ignoreBom && BOM <= bs then bs[3..] else bs
  }

  /** The native one-shot decoder; None stands for a thrown ERR_ENCODING_INVALID_ENCODED_DATA. */
  function DecodeImpl(bs: seq<byte>, fatal: bool, ignoreBom: bool): Option<seq<int>> {
    var items := Decode(StripBom(bs, ignoreBom));
    if fatal && Bad in items then None else Some(Text(items))
  }

  /** Told from the grammar: behind the BOM the text has the scalar value of every character and U+FFFD
      for every maximal ill-formed part; a fatal decoder throws when there is such a part. */
  lemma DecodeImplMeans(bs: seq<byte>, fatal: bool, ignoreBom: bool, items: seq<Item>)
    requires Reads(StripBom(bs, ignoreBom), items)
    ensures DecodeImpl(bs, fatal, ignoreBom) ==
            if fatal && !Utf8Octets(StripBom(bs, ignoreBom)) then None else Some(Text(items))
  {
    hide Decode, StripBom, Text, Reads;
    DecodeReads(StripBom(bs, ignoreBom), items);
    DecodesWithoutError(StripBom(bs, ignoreBom));
    WellFormedIsGrammar(StripBom(bs, ignoreBom));
  }

  function Append(a: Option<seq<int>>, b: Option<seq<int>>): Option<seq<int>> {
    if a.Some? && b.Some? then Some(a.value + b.value) else None
  }

  // ---------------------------------------------------------------------------------------
  // Which bytes must be held back
  // ---------------------------------------------------------------------------------------

  /** The decoder's state after a run of continuation bytes. */
  lemma {:induction false} AfterTails(s: State, tails: seq<byte>)
    requires Sane(s) && forall i :: 0 <= i < |tails| ==> Tail(tails[i])
    ensures Run(s, tails).0.held ==
            if tails == [] then s.held
            else if s.needed <= |tails| || !(s.lower <= tails[0] <= s.upper) then 0
            else s.held + |tails|
    decreases |tails|
  {
    if tails != [] {
      AfterTails(Step(s, tails[0]).0, tails[1..]);
    }
  }

  /** The bytes of an unfinished character start at a byte that is no continuation. */
  lemma {:induction false} HeldStart(bs: seq<byte>)
    ensures var p := Run(IDLE, bs).0.held;
            p <= 3 && p <= |bs| && (p > 0 ==> !Tail(bs[|bs| - p]))
    decreases |bs|
  {
    if bs != [] {
      var front, last := bs[..|bs| - 1], bs[|bs| - 1];
      assert front + [last] == bs;
      RunConcat(IDLE, front, [last]);
      HeldStart(front);
      OneStep(Run(IDLE, front).0, last);
    }
  }

  lemma OneStep(s: State, b: byte)
    requires Sane(s)
    ensures Run(s, [b]).0 == Step(s, b).0
    ensures Step(s, b).0.held == 0 || (Step(s, b).0.held == 1 && !Tail(b)) || Step(s, b).0.held == s.held + 1
    ensures Step(s, b).0.held <= 3
  {
  }

  /** The held bytes are exactly what must wait: cutting before them never changes the decoding. */
  lemma HeldCut(bs: seq<byte>, rest: seq<byte>)
    ensures var n := |bs| - Run(IDLE, bs).0.held;
            && 0 <= n && CutPoint(bs[..n], bs[n..] + rest)
            && Run(IDLE, bs + rest).0 == Run(IDLE, bs[n..] + rest).0
  {
    hide Run, Decode;
    HeldStart(bs);
    var n := |bs| - Run(IDLE, bs).0.held;
    var head, pending := bs[..n], bs[n..];
    SplitAt(bs, n);
    SplitRest(head, pending, rest);
    CutDecodes(head, pending + rest);
  }

  lemma SplitAt<T>(s: seq<T>, n: nat)
    requires n <= |s|
    ensures s[..n] + s[n..] == s && s[..|s|] == s
  {
  }

  lemma SplitRest<T>(a: seq<T>, b: seq<T>, c: seq<T>)
    ensures (a + b) + c == a + (b + c)
  {
  }

  method TrailingUtf8IncompleteLength(bytes: seq<byte>) returns (n: nat)
    ensures n == Run(IDLE, bytes).0.held
  {
    hide Run;
    RunNothing(IDLE);
    var length := |bytes|;
    if length == 0 { return 0; }
    var start := length - 1;
    while start >= 0 && Tail(bytes[start]) && length - start <= 4
      invariant -1 <= start < length && length - start <= 5
      invariant forall i :: start < i < length ==> Tail(bytes[i])
    {
      start := start - 1;
    }
    TrailingHeld(bytes, start);
    if start < 0 { return 0; }
    var lead := bytes[start];
    var needed := 0;
    if lead >= 0xC2 && lead <= 0xDF { needed := 2; }
    else if lead >= 0xE0 && lead <= 0xEF { needed := 3; }
    else if lead >= 0xF0 && lead <= 0xF4 { needed := 4; }
    else { return 0; }

    var available := length - start;
    if available >= 2 {
      var second := bytes[start + 1];
      if lead == 0xE0 && second < 0xA0 { return 0; }
      if lead == 0xED && second > 0x9F { return 0; }
      if lead == 0xF0 && second < 0x90 { return 0; }
      if lead == 0xF4 && second > 0x8F { return 0; }
    }
    return if available < needed then available else 0;
  }

  /** What the scan back to `start` tells about the decoder's state at the end. */
  lemma TrailingHeld(bytes: seq<byte>, start: int)
    requires -1 <= start < |bytes| && |bytes| - start <= 5
    requires forall i :: start < i < |bytes| ==> Tail(bytes[i])
    requires start < 0 || !Tail(bytes[start]) || |bytes| - start == 5
    ensures var held := Run(IDLE, bytes).0.held;
            if start < 0 || |bytes| - start == 5 then held == 0
            else var s := Lead(bytes[start]).0; var tails := bytes[start + 1..];
                 held == if tails == [] then s.held
                         else if s.needed <= |tails| || !(s.lower <= tails[0] <= s.upper) then 0
                         else s.held + |tails|
  {
    hide Run, Lead;
    var tails := bytes[start + 1..];
    assert bytes[..start + 1] + tails == bytes;
    RunConcat(IDLE, bytes[..start + 1], tails);
    AfterTails(Run(IDLE, bytes[..start + 1]).0, tails);
    RunNothing(IDLE);
    if start >= 0 && !Tail(bytes[start]) {
      AfterLead(bytes[..start], bytes[start]);
      assert bytes[..start] + [bytes[start]] == bytes[..start + 1];
    }
    if start < 0 {
      assert bytes[..start + 1] == [];
    }
  }

  lemma AfterLead(front: seq<byte>, lead: byte)
    requires !Tail(lead)
    ensures Run(IDLE, front + [lead]).0 == Lead(lead).0
  {
    RunConcat(IDLE, front, [lead]);
    OneStep(Run(IDLE, front).0, lead);
  }

  // ---------------------------------------------------------------------------------------
  // One-shot decoding splits at cut points
  // ---------------------------------------------------------------------------------------

  lemma BomIsOneChar()
    ensures Run(IDLE, BOM).0 == IDLE && Run(IDLE, BOM[..1]).0 != IDLE && Run(IDLE, BOM[..2]).0 != IDLE
  {
    EncodeScalarDecodes(0xFEFF);
    assert BOM == EncodeScalar(0xFEFF);
    assert BOM[..2] == BOM[..1] + [0xBB];
    RunConcat(IDLE, BOM[..1], [0xBB]);
    OneStep(IDLE, 0xEF);
    assert BOM[..1] == [0xEF];
    OneStep(Run(IDLE, [0xEF]).0, 0xBB);
  }

  lemma CutInsideBom(head: seq<byte>, tail: seq<byte>)
    requires head != [] && |head| < 3 && BOM <= head + tail
    ensures head == BOM[..|head|] && tail != [] && Tail(tail[0])
  {
    assert tail[0] == (head + tail)[|head|];
    assert head == (head + tail)[..|head|];
  }

  /** A cut never falls inside a BOM, so removing the BOM from the first part suffices. */
  lemma StripSplits(head: seq<byte>, tail: seq<byte>, ignoreBom: bool)
    requires CutPoint(head, tail)
    ensures CutPoint(StripBom(head, ignoreBom), StripBom(tail, ignoreBom || head != []))
    ensures StripBom(head + tail, ignoreBom) == StripBom(head, ignoreBom) + StripBom(tail, ignoreBom || head != [])
  {
    hide Run;
    BomIsOneChar();
    RunNothing(IDLE);
    if head == [] {
      assert head + tail == tail;
      assert StripBom(head, ignoreBom) == [];
    } else if !ignoreBom && BOM <= head + tail {
      if |head| < 3 {
        CutInsideBom(head, tail);
      } else {
        assert BOM + head[3..] == head;
        RunConcat(IDLE, BOM, head[3..]);
      }
    }
  }

  lemma TextConcat(a: seq<Item>, b: seq<Item>)
    ensures Text(a + b) == Text(a) + Text(b)
  {
  }

  lemma DecodeImplSplits(head: seq<byte>, tail: seq<byte>, fatal: bool, ignoreBom: bool)
    requires CutPoint(head, tail)
    ensures DecodeImpl(head + tail, fatal, ignoreBom) ==
            Append(DecodeImpl(head, fatal, ignoreBom), DecodeImpl(tail, fatal, ignoreBom || head != []))
  {
    hide CutPoint, Decode, StripBom, Text;
    StripSplits(head, tail, ignoreBom);
    var h, t := StripBom(head, ignoreBom), StripBom(tail, ignoreBom || head != []);
    CutDecodes(h, t);
    TextConcat(Decode(h), Decode(t));
  }

  // ---------------------------------------------------------------------------------------
  // The stateful decoder
  // ---------------------------------------------------------------------------------------

  /** `pending` is what the decoder holds back of the bytes head + pending. */
  ghost predicate HeldBack(head: seq<byte>, pending: seq<byte>) {
    |pending| == Run(IDLE, head + pending).0.held
  }

  /** One call more: the carried bytes and the new ones are cut where the whole input may be cut. */
  lemma CallSplits(head: seq<byte>, pending: seq<byte>, input: seq<byte>, fatal: bool, ignoreBom: bool)
    requires HeldBack(head, pending)
    ensures var bytes := pending + input;
            var m := |bytes| - Run(IDLE, bytes).0.held;
            && 0 <= m && HeldBack(head + bytes[..m], bytes[m..])
            && head + bytes == head + bytes[..m] + bytes[m..]
            && bytes[..|bytes|] == bytes && bytes[|bytes|..] == []
            && DecodeImpl(head + bytes[..m], fatal, ignoreBom) ==
               Append(DecodeImpl(head, fatal, ignoreBom), DecodeImpl(bytes[..m], fatal, ignoreBom || head != []))
            && DecodeImpl(head + bytes, fatal, ignoreBom) ==
               Append(DecodeImpl(head, fatal, ignoreBom), DecodeImpl(bytes, fatal, ignoreBom || head != []))
  {
    hide Run, DecodeImpl;
    var bytes := pending + input;
    HeldCut(head + pending, input);
    HeldPrefix(head, pending);
    SplitRest(head, pending, input);
    HeldStart(bytes);
    var m := |bytes| - Run(IDLE, bytes).0.held;
    SplitAt(bytes, m);
    SplitRest(head, bytes[..m], bytes[m..]);
    DecodeImplSplits(head, bytes, fatal, ignoreBom);
    if m == 0 {
      NothingDecodes(fatal, ignoreBom);
      assert head + [] == head;
    } else {
      DecodeImplSplits(head, bytes[..m], fatal, ignoreBom);
    }
  }

  lemma HeldPrefix(head: seq<byte>, pending: seq<byte>)
    requires HeldBack(head, pending)
    ensures var bs := head + pending;
            bs[..|bs| - Run(IDLE, bs).0.held] == head && bs[|bs| - Run(IDLE, bs).0.held..] == pending
  {
    hide Run;
  }

  lemma NothingDecodes(fatal: bool, ignoreBom: bool)
    ensures forall b: bool :: DecodeImpl([], fatal, b) == Some([])
    ensures forall a: Option<seq<int>> :: Append(a, Some([])) == a
  {
    forall a: Option<seq<int>>
      ensures Append(a, Some([])) == a
    {
      if a.Some? { assert a.value + [] == a.value; }
    }
  }

  /** When the part before the held bytes is ill-formed, every continuation is. */
  lemma ErrorIsFinal(head: seq<byte>, pending: seq<byte>, fed: seq<byte>, fatal: bool, ignoreBom: bool)
    requires HeldBack(head, pending) && DecodeImpl(head, fatal, ignoreBom) == None && fed == head + pending
    ensures forall rest :: DecodeImpl(fed + rest, fatal, ignoreBom) == None
  {
    hide Run, DecodeImpl;
    forall rest
      ensures DecodeImpl(fed + rest, fatal, ignoreBom) == None
    {
      CallSplits(head, pending, rest, fatal, ignoreBom);
      SplitRest(head, pending, rest);
    }
  }

  function ConcatBytes(first: seq<byte>, second: seq<byte>): (r: seq<byte>)
    ensures r == first + second
  {
    if |first| == 0 then second else if |second| == 0 then first else first + second
  }

  class TextDecoder {
    const fatal: bool
    const ignoreBOM: bool
    var ignoreBOMForNextDecode: bool
    var pending: seq<byte>
    var streaming: bool
    /** The input of the current stream whose decoding has been returned, and that decoding. */
    ghost var consumed: seq<byte>
    ghost var emitted: seq<int>
    /** Whether the current stream keeps a leading BOM; a fresh stream does as the constructor said. */
    ghost var keepsBom: bool

    ghost predicate Valid()
      reads this
    {
      && HeldBack(consumed, pending) && |pending| <= 3
      && ignoreBOMForNextDecode == (keepsBom || consumed != [])
      && DecodeImpl(consumed, fatal, keepsBom) == Some(emitted)
    }

    constructor (fatal: bool, ignoreBOM: bool)
      ensures Valid() && this.fatal == fatal && this.ignoreBOM == ignoreBOM && keepsBom == ignoreBOM
      ensures consumed == [] && pending == [] && emitted == []
    {
      this.fatal, this.ignoreBOM := fatal, ignoreBOM;
      ignoreBOMForNextDecode := ignoreBOM;
      pending, streaming := [], false;
      consumed, emitted, keepsBom := [], [], ignoreBOM;
      new;
      NothingDecodes(fatal, ignoreBOM);
      NothingHeld();
    }

    /** None stands for a throw. While nothing is thrown, what has been returned is the decoding
        of everything but the at most 3 bytes held back, and a flushing call completes the
        one-shot decoding of the whole stream. A throw means the whole stream is ill-formed; the
        decoder then starts over with the bytes it still holds back, none after a flush, but it
        keeps a leading BOM if anything of the stream that failed had been decoded. */
    method Decode(input: seq<byte>, stream: bool) returns (result: Option<seq<int>>)
      requires Valid()
      modifies this
      ensures Valid()
      ensures result.Some? && stream ==>
                && consumed + pending == old(consumed + pending) + input
                && emitted == old(emitted) + result.value && keepsBom == old(keepsBom)
      ensures result.Some? && !stream ==>
                && DecodeImpl(old(consumed + pending) + input, fatal, old(keepsBom)) ==
                   Some(old(emitted) + result.value)
                && consumed == [] && pending == [] && emitted == [] && keepsBom == ignoreBOM
      ensures result.None? && stream ==>
                forall rest :: DecodeImpl(old(consumed + pending) + input + rest, fatal, old(keepsBom)) == None
      ensures result.None? && !stream ==> DecodeImpl(old(consumed + pending) + input, fatal, old(keepsBom)) == None
      ensures result.None? ==>
                && consumed == [] && emitted == [] && keepsBom == (old(keepsBom) || old(consumed) != [])
                && pending == if stream then UnfinishedTail(old(pending) + input) else []
      ensures !fatal ==> result.Some?
    {
      hide Run, DecodeImpl, HeldBack, ConcatBytes, UnfinishedTail;
      var bytes := ConcatBytes(pending, input);
      if |pending| != 0 {
        pending := [];
      }
      assert old(consumed + pending) + input == old(consumed) + (old(pending) + input);
      if stream {
        result := DecodeStreaming(bytes, old(pending), input);
      } else {
        result := DecodeLast(bytes, old(pending), input);
      }
    }

    /** The streaming half: hold back an unfinished character, decode the rest. */
    method DecodeStreaming(bytes: seq<byte>, ghost carried: seq<byte>, ghost input: seq<byte>)
        returns (result: Option<seq<int>>)
      requires HeldBack(consumed, carried) && bytes == carried + input && pending == []
      requires ignoreBOMForNextDecode == (keepsBom || consumed != [])
      requires DecodeImpl(consumed, fatal, keepsBom) == Some(emitted)
      modifies this
      ensures Valid()
      ensures result.Some? ==>
                && consumed + pending == old(consumed) + bytes && keepsBom == old(keepsBom)
                && emitted == old(emitted) + result.value
      ensures result.None? ==>
                && fatal && (forall rest :: DecodeImpl(old(consumed) + bytes + rest, fatal, old(keepsBom)) == None)
                && consumed == [] && emitted == [] && keepsBom == (old(keepsBom) || old(consumed) != [])
                && pending == UnfinishedTail(bytes)
    {
      hide Run, DecodeImpl, HeldBack, UnfinishedTail, CutPoint, Tail;
      CallSplits(consumed, carried, input, fatal, keepsBom);
      NeverThrows(fatal);
      HeldStart(bytes);
      TailIsHeld(bytes);
      var complete := bytes;
      var pendingLength := TrailingUtf8IncompleteLength(bytes);
      if pendingLength != 0 {
        pending := bytes[|bytes| - pendingLength..];
        complete := bytes[..|bytes| - pendingLength];
      }
      result := DecodeImpl(complete, fatal, ignoreBOMForNextDecode);
      if result.None? {
        ErrorIsFinal(consumed + complete, pending, consumed + bytes, fatal, keepsBom);
        keepsBom := keepsBom || consumed != [];
        consumed, emitted := [], [];
        NothingDecodes(fatal, keepsBom);
        return;
      }
      if |complete| != 0 {
        ignoreBOMForNextDecode := true;
      }
      streaming := true;
      consumed, emitted := consumed + complete, emitted + result.value;
    }

    /** The flushing half: decode everything and start over. */
    method DecodeLast(bytes: seq<byte>, ghost carried: seq<byte>, ghost input: seq<byte>)
        returns (result: Option<seq<int>>)
      requires HeldBack(consumed, carried) && bytes == carried + input && pending == []
      requires ignoreBOMForNextDecode == (keepsBom || consumed != [])
      requires DecodeImpl(consumed, fatal, keepsBom) == Some(emitted)
      modifies this
      ensures DecodeImpl(old(consumed) + bytes, fatal, old(keepsBom)) ==
              if result.Some? then Some(old(emitted) + result.value) else None
      ensures Valid() && consumed == [] && pending == [] && emitted == []
      ensures keepsBom == if result.Some? then ignoreBOM else old(keepsBom) || old(consumed) != []
      ensures result.None? ==> fatal
    {
      hide Run, DecodeImpl, HeldBack;
      CallSplits(consumed, carried, input, fatal, keepsBom);
      NeverThrows(fatal);
      NothingHeld();
      result := DecodeImpl(bytes, fatal, ignoreBOMForNextDecode);
      NothingDecodes(fatal, ignoreBOM);
      if result.None? {
        keepsBom := keepsBom || consumed != [];
        consumed, emitted := [], [];
        return;
      }
      pending := [];
      ignoreBOMForNextDecode := ignoreBOM;
      streaming := false;
      consumed, emitted, keepsBom := [], [], ignoreBOM;
    }
  }

  /** The unfinished character at the end of some bytes. */
  function UnfinishedTail(bytes: seq<byte>): (tail: seq<byte>)
    ensures |tail| <= 3
  {
    var n := Run(IDLE, bytes).0.held;
    if n <= |bytes| && n <= 3 then bytes[|bytes| - n..] else []
  }

  lemma TailIsHeld(bytes: seq<byte>)
    ensures var n := Run(IDLE, bytes).0.held;
            && n <= 3 && n <= |bytes| && UnfinishedTail(bytes) == bytes[|bytes| - n..]
            && HeldBack([], UnfinishedTail(bytes))
  {
    hide Run, HeldBack, CutPoint, Tail;
    HeldStart(bytes);
    HeldCut(bytes, []);
    NoMore(bytes);
    NoMore(UnfinishedTail(bytes));
    HeldAlone(UnfinishedTail(bytes));
  }

  lemma NoMore(bytes: seq<byte>)
    ensures bytes + [] == bytes
  {
  }

  lemma HeldAlone(bytes: seq<byte>)
    requires Run(IDLE, bytes).0.held == |bytes|
    ensures HeldBack([], bytes)
  {
    hide Run;
    assert [] + bytes == bytes;
  }

  lemma NeverThrows(fatal: bool)
    ensures !fatal ==> forall bs: seq<byte>, b: bool :: DecodeImpl(bs, fatal, b).Some?
  {
  }

  lemma NothingHeld()
    ensures HeldBack([], [])
  {
  }

  // ---------------------------------------------------------------------------------------
  // Chunking independence
  // ---------------------------------------------------------------------------------------

  /** Feeding the chunks one by one and flushing gives the one-shot decoding of their
      concatenation, for every split and for ill-formed input as well; some call throws exactly
      when that decoding does. */
  method DecodeChunks(chunks: seq<seq<byte>>, fatal: bool, ignoreBOM: bool) returns (text: Option<seq<int>>)
    ensures text == DecodeImpl(Flatten(chunks), fatal, ignoreBOM)
  {
    hide DecodeImpl;
    var decoder := new TextDecoder(fatal, ignoreBOM);
    var str := [];
    for i := 0 to |chunks|
      invariant decoder.Valid() && decoder.fatal == fatal && decoder.ignoreBOM == ignoreBOM && fresh(decoder)
      invariant decoder.consumed + decoder.pending == Flatten(chunks[..i])
      invariant str == decoder.emitted && decoder.keepsBom == ignoreBOM
    {
      assert chunks[..i + 1] == chunks[..i] + [chunks[i]];
      FlattenSnoc(chunks[..i], chunks[i]);
      var part := decoder.Decode(chunks[i], true);
      if part.None? {
        FlattenSplit(chunks, i + 1);
        return None;
      }
      str := str + part.value;
    }
    assert chunks[..|chunks|] == chunks;
    var last := decoder.Decode([], false);
    assert Flatten(chunks) + [] == Flatten(chunks);
    return if last.None? then None else Some(str + last.value);
  }

  // ---------------------------------------------------------------------------------------
  // After a failed flush
  // ---------------------------------------------------------------------------------------

  /** A flushing call that throws does not restore the BOM flag: a decoder that has decoded some
      bytes of the stream that failed keeps the BOM of the next one. */
  method ReuseAfterThrow(head: seq<byte>, last: seq<byte>, next: seq<byte>, ignoreBOM: bool)
    returns (first: Option<seq<int>>, second: Option<seq<int>>, again: Option<seq<int>>)
    ensures first.None? ==> forall rest :: DecodeImpl(head + rest, true, ignoreBOM) == None
    ensures first.Some? ==> (second.None? <==> DecodeImpl(head + last, true, ignoreBOM) == None)
    ensures first.Some? && second.None? ==>
              again == DecodeImpl(next, true, ignoreBOM || Run(IDLE, head).0.held < |head|)
  {
    hide Run, DecodeImpl;
    var decoder := new TextDecoder(true, ignoreBOM);
    first := decoder.Decode(head, true);
    assert [] + [] + head == head;
    if first.Some? { HeldOfStream(decoder.consumed, decoder.pending, head); }
    second := decoder.Decode(last, false);
    again := decoder.Decode(next, false);
    if again.Some? { assert [] + again.value == again.value; }
    assert [] + [] + next == next;
  }

  lemma HeldOfStream(consumed: seq<byte>, pending: seq<byte>, head: seq<byte>)
    requires HeldBack(consumed, pending) && consumed + pending == head
    ensures consumed != [] <==> Run(IDLE, head).0.held < |head|
  {
  }

  /** Such a decoder serves every next input as a fresh one would exactly when it was built to keep
      the BOM or nothing of the stream that failed had been decoded. */
  lemma ReuseIsFresh(ignoreBOM: bool, head: seq<byte>)
    ensures (forall next: seq<byte> :: DecodeImpl(next, true, ignoreBOM || Run(IDLE, head).0.held < |head|)
                                       == DecodeImpl(next, true, ignoreBOM))
            <==> ignoreBOM || Run(IDLE, head).0.held == |head|
  {
    hide Run, DecodeImpl;
    HeldStart(head);
    BomDecodes();
  }

  lemma BomDecodes()
    ensures DecodeImpl(BOM, true, true) == Some([0xFEFF]) && DecodeImpl(BOM, true, false) == Some([])
  {
    EncodeScalarDecodes(0xFEFF);
    assert BOM == EncodeScalar(0xFEFF) && Decode(BOM) == [Point(0xFEFF)];
    assert Decode([]) == [];
    assert Text([Point(0xFEFF)]) == [0xFEFF];
  }

  lemma LetterThenBadByte()
    ensures DecodeImpl([0x41] + [], true, false).Some? && DecodeImpl([0x41] + [0xFF], true, false) == None
    ensures Run(IDLE, [0x41]).0.held == 0
  {
    assert [0x41] + [] == [0x41] && StripBom([0x41], false) == [0x41];
    assert StripBom([0x41] + [0xFF], false) == [0x41, 0xFF];
    assert WellFormed([0x41]) by { assert CharLength([0x41]) == 1; }
    DecodesWithoutError([0x41]);
    assert [0x41, 0xFF][1..] == [0xFF] && [0x41, 0xFF][..1] == [0x41];
    assert !WellFormed([0xFF]);
    assert !WellFormed([0x41, 0xFF]) by { assert CharLength([0x41, 0xFF]) == 1; }
    DecodesWithoutError([0x41, 0xFF]);
  }

  /** Stream "A", flush an invalid byte, decode a BOM: the BOM is kept, a fresh decoder drops it. */
  method StaleBomFlag() returns (again: Option<seq<int>>, fresh': Option<seq<int>>)
    ensures again == Some([0xFEFF]) && fresh' == Some([])
  {
    hide DecodeImpl;
    LetterThenBadByte();
    BomDecodes();
    var first, second;
    first, second, again := ReuseAfterThrow([0x41], [0xFF], BOM, false);
    var decoder := new TextDecoder(true, false);
    fresh' := decoder.Decode(BOM, false);
    assert [] + [] + BOM == BOM;
    if fresh'.Some? { assert [] + fresh'.value == fresh'.value; }
  }
}
