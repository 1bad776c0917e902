/** Blobs: trees of byte views and nested blobs
    (crates/runtime/src/builtin/fetch-blob-4.0.0.js:4-31, 48-82, 111-140 and 168-211). */
module Blobs {
  import opened Options
  import opened Utf8
  import TextDecoding

  datatype Part = View(bytes: seq<byte>) | Nested(blob: Blob)
  datatype Blob = Blob(parts: seq<Part>, size: nat)

  const POOL_SIZE: nat := 65536

  // ---------------------------------------------------------------------------------------
  // The bytes a blob stands for
  // ---------------------------------------------------------------------------------------

  function PartContent(p: Part): seq<byte> {
    match p
    case View(bytes) => bytes
    case Nested(blob) => PartsContent(blob.parts)
  }

  function PartsContent(parts: seq<Part>): seq<byte> {
    if parts == [] then [] else PartContent(parts[0]) + PartsContent(parts[1..])
  }

  function Content(b: Blob): seq<byte> {
    PartsContent(b.parts)
  }

  function PartSize(p: Part): nat {
    match p
    case View(bytes) => |bytes|
    case Nested(blob) => blob.size
  }

  /** Every size is the number of bytes, and no part anywhere is empty. */
  ghost predicate Valid(b: Blob)
    decreases b
  {
    && b.size == |Content(b)|
    && forall i :: 0 <= i < |b.parts| ==> PartSize(b.parts[i]) > 0 && (b.parts[i].Nested? ==> Valid(b.parts[i].blob))
  }

  ghost predicate ValidParts(parts: seq<Part>) {
    forall i :: 0 <= i < |parts| ==> PartSize(parts[i]) > 0 && (parts[i].Nested? ==> Valid(parts[i].blob))
  }

  lemma {:induction false} PartsConcat(a: seq<Part>, b: seq<Part>)
    ensures PartsContent(a + b) == PartsContent(a) + PartsContent(b)
    decreases |a|
  {
    if a == [] {
      assert a + b == b;
    } else {
      PartsConcat(a[1..], b);
      assert (a + b)[1..] == a[1..] + b;
    }
  }

  lemma PartsSnoc(parts: seq<Part>, p: Part)
    ensures PartsContent(parts + [p]) == PartsContent(parts) + PartContent(p)
  {
    PartsConcat(parts, [p]);
    assert [p][1..] == [];
  }

  lemma PartSizeIsLength(p: Part)
    requires p.Nested? ==> Valid(p.blob)
    ensures PartSize(p) == |PartContent(p)|
  {
  }

  /** The sum of the part sizes is the size. */
  function TotalSize(parts: seq<Part>): nat {
    if parts == [] then 0 else PartSize(parts[0]) + TotalSize(parts[1..])
  }

  lemma {:induction false} SizesAddUp(parts: seq<Part>)
    requires ValidParts(parts)
    ensures TotalSize(parts) == |PartsContent(parts)|
  {
    if parts != [] {
      PartSizeIsLength(parts[0]);
      SizesAddUp(parts[1..]);
    }
  }

  // ---------------------------------------------------------------------------------------
  // Construction
  // ---------------------------------------------------------------------------------------

  method Construct(blobParts: seq<Part>) returns (b: Blob)
    requires forall i :: 0 <= i < |blobParts| ==> blobParts[i].Nested? ==> Valid(blobParts[i].blob)
    ensures Valid(b) && Content(b) == PartsContent(blobParts)
  {
    var parts: seq<Part> := [];
    var total := 0;
    for i := 0 to |blobParts|
      invariant ValidParts(parts) && PartsContent(parts) == PartsContent(blobParts[..i])
                && total == |PartsContent(parts)|
    {
      var part := blobParts[i];
      var size := PartSize(part);
      assert blobParts[..i + 1] == blobParts[..i] + [part];
      PartsSnoc(blobParts[..i], part);
      PartSizeIsLength(part);
      if size > 0 {
        PartsSnoc(parts, part);
        total := total + size;
        parts := parts + [part];
      }
    }
    assert blobParts[..|blobParts|] == blobParts;
    b := Blob(parts, total);
  }

  // ---------------------------------------------------------------------------------------
  // Slicing
  // ---------------------------------------------------------------------------------------

  function Min(a: int, b: int): int { if a < b then a else b }
  function Max(a: int, b: int): int { if a < b then b else a }

  /** Negative positions count from the end; both are clamped to the blob. */
  function Clamp(position: int, size: nat): (r: nat)
    ensures r <= size
  {
    if position < 0 then Max(size + position, 0) else Min(position, size)
  }

  function SliceOf(c: seq<byte>, start: int, end: int): seq<byte> {
    var s, e := Clamp(start, |c|), Clamp(end, |c|);
    if s < e then c[s..e] else []
  }

  /** A position of the content, counted from its end when negative. */
  function FromFront(position: int, size: nat): int {
    if position < 0 then size + position else position
  }

  /** The position lies at or behind `start` and in front of `end`, wherever those are. */
  predicate Covers(size: nat, start: int, end: int, p: nat) {
    FromFront(start, size) <= p < FromFront(end, size)
  }

  /** A slice is the bytes between its start and its end, in order. */
  lemma SliceMeans(c: seq<byte>, start: int, end: int) returns (first: nat)
    ensures var s := SliceOf(c, start, end);
            && first + |s| <= |c| && s == c[first..first + |s|]
            && forall p: nat :: p < |c| ==> (Covers(|c|, start, end, p) <==> first <= p < first + |s|)
  {
    first := Clamp(start, |c|);
  }

  /** With a negative start it is the last bytes, all of them when there are fewer. */
  lemma SliceOfLast(c: seq<byte>, n: nat)
    requires n > 0
    ensures SliceOf(c, 0 - n, |c|) == if n <= |c| then c[|c| - n..] else c
  {
    var _ := SliceMeans(c, 0 - n, |c|);
  }

  method Slice(b: Blob, start: int, end: int) returns (r: Blob)
    requires Valid(b)
    ensures Valid(r) && Content(r) == SliceOf(Content(b), start, end)
    decreases b
  {
    hide PartsContent, Valid;
    ValidMeans(b);
    var size := b.size;
    var relativeStart := Clamp(start, size);
    var relativeEnd: int := Clamp(end, size);
    var span := Max(relativeEnd - relativeStart, 0);
    ghost var from, to, all := relativeStart, relativeEnd, Content(b);
    var blobParts: seq<Part> := [];
    var added := 0;
    ghost var seen := 0;
    NoParts();
    assert b.parts[..0] == [];
    for i := 0 to |b.parts|
      invariant seen == |PartsContent(b.parts[..i])| <= |all| && PartsContent(b.parts[..i]) == all[..seen]
      invariant relativeStart == Max(from - seen, 0) && relativeEnd == to - seen
      invariant added == Max(Min(seen, to) - from, 0) <= span
      invariant ValidParts(blobParts) && PartsContent(blobParts) == all[from..from + added]
    {
      if added >= span { break; }
      var part := b.parts[i];
      PartEnds(b, i);
      PartSizeIsLength(part);
      var partSize := PartSize(part);
      if relativeStart > 0 && partSize <= relativeStart {
        relativeStart := relativeStart - partSize;
        relativeEnd := relativeEnd - partSize;
      } else {
        var chunk := SlicePart(part, relativeStart, Min(partSize, relativeEnd));
        ChunkExtends(all, from, added, seen, PartContent(part), relativeStart, Min(partSize, relativeEnd));
        added := added + PartSize(chunk);
        relativeEnd := relativeEnd - partSize;
        PartsSnoc(blobParts, chunk);
        blobParts := blobParts + [chunk];
        relativeStart := 0;
      }
      seen := seen + partSize;
    }
    assert b.parts[..|b.parts|] == b.parts;
    r := Blob(blobParts, span);
    MakeValid(r);
  }

  lemma SubOfSub(c: seq<byte>, s: nat, e: nat, x: nat, y: nat)
    requires s <= e <= |c| && x <= y <= e - s
    ensures c[s..e][x..y] == c[s + x..s + y]
  {
    assert forall k | 0 <= k < y - x :: c[s..e][x..y][k] == c[s + x..s + y][k];
  }

  lemma ChunkExtends(all: seq<byte>, from: nat, added: nat, seen: nat, c: seq<byte>, start: nat, end: nat)
    requires seen + |c| <= |all| && all[seen..seen + |c|] == c && start <= end <= |c| && from + added == seen + start
    ensures all[from..from + added] + c[start..end] == all[from..from + (added + (end - start))]
  {
    SubOfSub(all, seen, seen + |c|, start, end);
    assert c[start..end] == all[from + added..from + added + (end - start)];
  }

  /** subarray of a view, slice of a nested blob. */
  method SlicePart(part: Part, start: nat, end: nat) returns (chunk: Part)
    requires start < end <= PartSize(part) && (part.Nested? ==> Valid(part.blob))
    ensures PartSize(chunk) == end - start && (chunk.Nested? ==> Valid(chunk.blob))
    ensures end <= |PartContent(part)| && PartContent(chunk) == PartContent(part)[start..end]
    decreases part
  {
    match part
    case View(bytes) => chunk := View(bytes[start..end]);
    case Nested(blob) =>
      var inner := Slice(blob, start, end);
      chunk := Nested(inner);
  }

  lemma ValidMeans(b: Blob)
    requires Valid(b)
    ensures b.size == |Content(b)| && ValidParts(b.parts)
  {
  }

  lemma MakeValid(b: Blob)
    requires b.size == |Content(b)| && ValidParts(b.parts)
    ensures Valid(b)
  {
  }

  lemma NoParts()
    ensures PartsContent([]) == []
  {
  }

  /** Where part i lies in the content. */
  lemma PartEnds(b: Blob, i: nat)
    requires i < |b.parts|
    ensures var seen, all, c := |PartsContent(b.parts[..i])|, Content(b), PartContent(b.parts[i]);
            && seen + |c| <= |all| && all[seen..seen + |c|] == c
            && PartsContent(b.parts[..i]) == all[..seen] && PartsContent(b.parts[..i + 1]) == all[..seen + |c|]
            && |PartsContent(b.parts[..i + 1])| == seen + |c|
  {
    hide PartsContent, PartContent;
    PartsSnoc(b.parts[..i], b.parts[i]);
    assert b.parts[..i + 1] == b.parts[..i] + [b.parts[i]];
    PartsConcat(b.parts[..i + 1], b.parts[i + 1..]);
    assert b.parts[..i + 1] + b.parts[i + 1..] == b.parts;
  }

  /** Slicing a slice is slicing the blob at shifted positions. */
  lemma SlicesCompose(c: seq<byte>, start: int, end: int, start2: int, end2: int)
    ensures var first := SliceOf(c, start, end);
            var s := Clamp(start, |c|);
            SliceOf(first, start2, end2) == SliceOf(c, s + Clamp(start2, |first|), s + Clamp(end2, |first|))
  {
    var first := SliceOf(c, start, end);
    var s, e, x, y := Clamp(start, |c|), Clamp(end, |c|), Clamp(start2, |first|), Clamp(end2, |first|);
    if s < e && x < y {
      SubOfSub(c, s, e, x, y);
    }
  }

  // ---------------------------------------------------------------------------------------
  // Reading
  // ---------------------------------------------------------------------------------------

  /** A view cut behind every POOL_SIZE bytes. */
  function Pieces(bytes: seq<byte>): seq<seq<byte>> {
    if |bytes| <= POOL_SIZE then (if bytes == [] then [] else [bytes])
    else [bytes[..POOL_SIZE]] + Pieces(bytes[POOL_SIZE..])
  }

  /** Every piece but the last has POOL_SIZE bytes, and the pieces cover the view. */
  lemma {:induction false} PieceAt(bytes: seq<byte>, i: nat)
    requires i < |Pieces(bytes)|
    ensures i * POOL_SIZE < |bytes|
    ensures Pieces(bytes)[i] == bytes[i * POOL_SIZE..Min((i + 1) * POOL_SIZE, |bytes|)]
    ensures i == |Pieces(bytes)| - 1 <==> |bytes| <= (i + 1) * POOL_SIZE
    decreases i
  {
    if i > 0 {
      var rest := bytes[POOL_SIZE..];
      PieceAt(rest, i - 1);
      var from, to := (i - 1) * POOL_SIZE, Min(i * POOL_SIZE, |rest|);
      assert rest[from..to] == bytes[from + POOL_SIZE..to + POOL_SIZE];
    } else if |bytes| > POOL_SIZE {
      assert |Pieces(bytes[POOL_SIZE..])| > 0;
    }
  }

  /** The views of a tree of parts, in order: whole, or in pieces when cloned; nested blobs clone. */
  function Chunks(parts: seq<Part>, clone: bool): seq<seq<byte>> {
    if parts == [] then [] else ChunksOf(parts[0], clone) + Chunks(parts[1..], clone)
  }

  function ChunksOf(part: Part, clone: bool): seq<seq<byte>> {
    match part
    case View(bytes) => if clone then Pieces(bytes) else [bytes]
    case Nested(blob) => Chunks(blob.parts, true)
  }

  lemma {:induction false} ChunksConcat(a: seq<Part>, b: seq<Part>, clone: bool)
    ensures Chunks(a + b, clone) == Chunks(a, clone) + Chunks(b, clone)
    decreases |a|
  {
    hide ChunksOf;
    if a == [] {
      assert a + b == b;
    } else {
      var first, rest := ChunksOf(a[0], clone), Chunks(a[1..], clone);
      ChunksConcat(a[1..], b, clone);
      assert (a + b)[1..] == a[1..] + b;
      assert first + (rest + Chunks(b, clone)) == (first + rest) + Chunks(b, clone);
    }
  }

  lemma ChunksSnoc(parts: seq<Part>, p: Part, clone: bool)
    ensures Chunks(parts + [p], clone) == Chunks(parts, clone) + ChunksOf(p, clone)
  {
    hide ChunksOf;
    ChunksConcat(parts, [p], clone);
    assert [p][1..] == [] && ChunksOf(p, clone) + [] == ChunksOf(p, clone);
  }

  /** The chunks an iteration over parts yields. */
  method ToIterator(parts: seq<Part>, clone: bool) returns (chunks: seq<seq<byte>>)
    ensures chunks == Chunks(parts, clone) && Flatten(chunks) == PartsContent(parts)
    ensures clone ==> forall i :: 0 <= i < |chunks| ==> 0 < |chunks[i]| <= POOL_SIZE
    decreases parts
  {
    hide PartsContent, Flatten, Chunks, ChunksOf;
    chunks := [];
    NoParts();
    assert Chunks([], clone) == [] by { NoChunksOf(clone); }
    NoChunks();
    assert parts[..0] == [];
    for i := 0 to |parts|
      invariant chunks == Chunks(parts[..i], clone) && Flatten(chunks) == PartsContent(parts[..i])
      invariant clone ==> forall j :: 0 <= j < |chunks| ==> 0 < |chunks[j]| <= POOL_SIZE
    {
      PartsSnoc(parts[..i], parts[i]);
      ChunksSnoc(parts[..i], parts[i], clone);
      assert parts[..i + 1] == parts[..i] + [parts[i]];
      var partChunks := PartChunks(parts[i], clone);
      FlattenConcat(chunks, partChunks);
      chunks := chunks + partChunks;
    }
    assert parts[..|parts|] == parts;
  }

  lemma NoChunksOf(clone: bool)
    ensures Chunks([], clone) == []
  {
  }

  method PartChunks(part: Part, clone: bool) returns (chunks: seq<seq<byte>>)
    ensures chunks == ChunksOf(part, clone) && Flatten(chunks) == PartContent(part)
    ensures clone ==> forall i :: 0 <= i < |chunks| ==> 0 < |chunks[i]| <= POOL_SIZE
    decreases part
  {
    match part
    case View(bytes) =>
      if clone {
        chunks := CopyPieces(bytes);
      } else {
        chunks := [bytes];
        assert [bytes][1..] == [] && bytes + [] == bytes;
      }
    case Nested(blob) =>
      chunks := ToIterator(blob.parts, true);
  }

  method CopyPieces(bytes: seq<byte>) returns (pieces: seq<seq<byte>>)
    ensures pieces == Pieces(bytes) && Flatten(pieces) == bytes
    ensures forall i :: 0 <= i < |pieces| ==> 0 < |pieces[i]| <= POOL_SIZE
  {
    hide Flatten, Pieces;
    NoChunks();
    pieces := [];
    assert bytes[0..] == bytes;
    var position, end := 0, |bytes|;
    assert bytes[..0] == [];
    while position != end
      invariant 0 <= position <= end && Flatten(pieces) == bytes[..position]
      invariant Pieces(bytes) == pieces + Pieces(bytes[position..])
      invariant forall i :: 0 <= i < |pieces| ==> 0 < |pieces[i]| <= POOL_SIZE
      decreases end - position
    {
      var size := Min(end - position, POOL_SIZE);
      FirstPiece(bytes[position..], size);
      assert bytes[position..][..size] == bytes[position..position + size];
      assert bytes[position..][size..] == bytes[position + size..];
      FlattenSnoc(pieces, bytes[position..position + size]);
      assert bytes[..position] + bytes[position..position + size] == bytes[..position + size];
      pieces := pieces + [bytes[position..position + size]];
      position := position + size;
    }
    assert bytes[..end] == bytes;
    NoPieces(bytes[end..]);
  }

  lemma FirstPiece(bytes: seq<byte>, size: nat)
    requires bytes != [] && size == Min(|bytes|, POOL_SIZE)
    ensures Pieces(bytes) == [bytes[..size]] + Pieces(bytes[size..])
  {
    if |bytes| <= POOL_SIZE { assert bytes[..size] == bytes; }
  }

  lemma NoPieces(bytes: seq<byte>)
    requires bytes == []
    ensures Pieces(bytes) == []
  {
  }

  lemma NoChunks()
    ensures Flatten<byte>([]) == []
  {
  }

  /** The chunks fill a buffer of `size` bytes exactly. */
  method ArrayBuffer(b: Blob) returns (data: array<byte>)
    requires Valid(b)
    ensures fresh(data) && data[..] == Content(b)
  {
    hide PartsContent, Flatten;
    ValidMeans(b);
    data := new byte[b.size](_ => 0);
    var offset := 0;
    var chunks := ToIterator(b.parts, false);
    NoChunks();
    assert chunks[..0] == [];
    for i := 0 to |chunks|
      invariant offset == |Flatten(chunks[..i])| <= data.Length && data[..offset] == Flatten(chunks[..i])
    {
      FlattenSplit(chunks, i + 1);
      FlattenSnoc(chunks[..i], chunks[i]);
      assert chunks[..i + 1] == chunks[..i] + [chunks[i]];
      ghost var before := data[..offset];
      forall k | 0 <= k < |chunks[i]| {
        data[offset + k] := chunks[i][k];
      }
      assert data[..offset + |chunks[i]|] == before + chunks[i];
      offset := offset + |chunks[i]|;
    }
    assert chunks[..|chunks|] == chunks;
    assert data[..] == data[..offset];
  }

  /** Decoding the parts as a stream gives what decoding the whole content would, whatever the part
      boundaries. */
  method BlobText(b: Blob) returns (str: seq<int>)
    ensures TextDecoding.DecodeImpl(Content(b), false, false) == Some(str)
  {
    hide PartsContent, Flatten;
    var chunks := ToIterator(b.parts, false);
    var text := TextDecoding.DecodeChunks(chunks, false, false);
    TextDecoding.NeverThrows(false);
    str := text.value;
  }
}
