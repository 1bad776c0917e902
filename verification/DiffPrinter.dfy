/** Rendering of a diff with long unchanged runs collapsed
    (crates/runtime/src/builtin/assert.js:375-427). */
module DiffPrinter {
  import opened MyersDiff

  type Diff = seq<Entry<string>>

  const NOP_LINES_TO_COLLAPSE: nat := 5

  function Line(e: Entry<string>): string {
    match e.kind
    case Insert => "+ " + e.value
    case Delete => "- " + e.value
    case Nop => "  " + e.value
  }

  function Lines(run: Diff): (r: seq<string>)
    ensures |r| == |run| && forall i :: 0 <= i < |run| ==> r[i] == Line(run[i])
  {
    seq(|run|, i requires 0 <= i < |run| => Line(run[i]))
  }

  // ---------------------------------------------------------------------------------------
  // Reference rendering, run by run
  // ---------------------------------------------------------------------------------------

  /** The length of the unchanged run at the front. */
  function NopRun(f: Diff): (n: nat)
    ensures n <= |f| && (forall i :: 0 <= i < n ==> f[i].kind == Nop) && (n < |f| ==> f[n].kind != Nop)
  {
    if f == [] || f[0].kind != Nop then 0 else 1 + NopRun(f[1..])
  }

  /** A run of at most 7 lines is shown whole, a longer one as its first 5 lines, "..." and its last. */
  function Collapse(run: Diff): seq<string> {
    if |run| <= NOP_LINES_TO_COLLAPSE + 2 then Lines(run)
    else Lines(run[..NOP_LINES_TO_COLLAPSE]) + ["...", Line(run[|run| - 1])]
  }

  function Render(f: Diff): seq<string>
    decreases |f|
  {
    if f == [] then []
    else if f[0].kind == Nop then Collapse(f[..NopRun(f)]) + Render(f[NopRun(f)..])
    else [Line(f[0])] + Render(f[1..])
  }

  /** Some run the rendering meets is longer than 7 lines. */
  predicate Skips(f: Diff)
    decreases |f|
  {
    if f == [] then false
    else if f[0].kind == Nop then NopRun(f) >= NOP_LINES_TO_COLLAPSE + 3 || Skips(f[NopRun(f)..])
    else Skips(f[1..])
  }

  /** Eight consecutive unchanged lines start at index i. */
  predicate LongRunAt(f: Diff, i: int) {
    0 <= i <= |f| - 8 && forall j :: i <= j < i + 8 ==> f[j].kind == Nop
  }

  /** Lines are skipped exactly when eight consecutive lines are unchanged. */
  lemma {:induction false} SkipsMeansLongRun(f: Diff)
    ensures Skips(f) <==> exists i :: LongRunAt(f, i)
    decreases |f|
  {
    if f != [] {
      var n := if f[0].kind == Nop then NopRun(f) else 1;
      SkipsMeansLongRun(f[n..]);
      if i :| LongRunAt(f, i) {
        if i >= n {
          assert LongRunAt(f[n..], i - n);
        }
      }
      if i :| LongRunAt(f[n..], i) {
        assert LongRunAt(f, i + n);
      }
      if f[0].kind == Nop && n >= 8 {
        assert LongRunAt(f, 0);
      }
    }
  }

  lemma RunRenders(f: Diff, n: nat)
    requires f != [] && f[0].kind == Nop && NopRun(f) == n
    ensures Render(f) == Collapse(f[..n]) + Render(f[n..])
    ensures Skips(f) <==> n >= NOP_LINES_TO_COLLAPSE + 3 || Skips(f[n..])
  {
    hide Collapse;
  }

  // ---------------------------------------------------------------------------------------
  // What a reader gets back
  // ---------------------------------------------------------------------------------------

  /** The text behind the mark, if the line carries it. */
  function Unmarked(line: string, mark: char): seq<string> {
    if |line| >= 2 && line[0] == mark && line[1] == ' ' then [line[2..]] else []
  }

  /** The texts behind the lines that carry a mark. */
  function Marked(lines: seq<string>, mark: char): seq<string> {
    if lines == [] then [] else Unmarked(lines[0], mark) + Marked(lines[1..], mark)
  }

  function Values(f: Diff, kind: Kind): seq<string> {
    if f == [] then [] else (if f[0].kind == kind then [f[0].value] else []) + Values(f[1..], kind)
  }

  function MarkOf(kind: Kind): char {
    match kind
    case Insert => '+'
    case Delete => '-'
    case Nop => ' '
  }

  lemma {:induction false} MarkedConcat(a: seq<string>, b: seq<string>, mark: char)
    ensures Marked(a + b, mark) == Marked(a, mark) + Marked(b, mark)
    decreases |a|
  {
    hide Unmarked, Marked;
    MarkedFirst(a, mark);
    if a == [] {
      assert a + b == b && [] + Marked(b, mark) == Marked(b, mark);
    } else {
      MarkedConcat(a[1..], b, mark);
      MarkedFirst(a + b, mark);
      assert (a + b)[1..] == a[1..] + b;
      Assoc(Unmarked(a[0], mark), Marked(a[1..], mark), Marked(b, mark));
    }
  }

  lemma MarkedFirst(lines: seq<string>, mark: char)
    ensures Marked(lines, mark) == if lines == [] then [] else Unmarked(lines[0], mark) + Marked(lines[1..], mark)
  {
  }

  lemma NopsUnmarked(run: Diff, mark: char)
    requires mark != ' ' && mark != '.' && forall i :: 0 <= i < |run| ==> run[i].kind == Nop
    ensures Marked(Collapse(run), mark) == []
  {
    NoneMarked(Collapse(run), mark);
  }

  lemma {:induction false} NoneMarked(lines: seq<string>, mark: char)
    requires forall i :: 0 <= i < |lines| ==> lines[i] != "" && lines[i][0] != mark
    ensures Marked(lines, mark) == []
    decreases |lines|
  {
    if lines != [] {
      NoneMarked(lines[1..], mark);
    }
  }

  /** However much is collapsed, every insertion is a line marked "+" and every deletion one marked "-",
      in order, and no other line is. */
  lemma {:induction false} EditsAreMarked(f: Diff, kind: Kind)
    requires kind != Nop
    ensures Marked(Render(f), MarkOf(kind)) == Values(f, kind)
    decreases |f|
  {
    hide Line, Collapse, Marked, Render, Values, MarkOf;
    var mark := MarkOf(kind);
    if f == [] {
      NothingMarked(kind);
    } else if f[0].kind == Nop {
      var n := NopRun(f);
      RunRenders(f, n);
      EditsAreMarked(f[n..], kind);
      NotMarks(kind);
      NopsUnmarked(f[..n], mark);
      MarkedConcat(Collapse(f[..n]), Render(f[n..]), mark);
      NopsHaveNone(f, n, kind);
    } else {
      EditRenders(f, kind);
      EditsAreMarked(f[1..], kind);
      MarkedConcat([Line(f[0])], Render(f[1..]), mark);
      MarkedLine(f[0], kind);
    }
  }

  lemma NothingMarked(kind: Kind)
    ensures Marked(Render([]), MarkOf(kind)) == [] == Values([], kind)
  {
  }

  lemma NotMarks(kind: Kind)
    requires kind != Nop
    ensures MarkOf(kind) != ' ' && MarkOf(kind) != '.'
  {
  }

  lemma EditRenders(f: Diff, kind: Kind)
    requires f != [] && f[0].kind != Nop
    ensures Render(f) == [Line(f[0])] + Render(f[1..])
    ensures Values(f, kind) == (if f[0].kind == kind then [f[0].value] else []) + Values(f[1..], kind)
  {
    hide Line;
  }

  lemma MarkedLine(e: Entry<string>, kind: Kind)
    requires e.kind != Nop && kind != Nop
    ensures Marked([Line(e)], MarkOf(kind)) == if e.kind == kind then [e.value] else []
  {
    assert Line(e)[2..] == e.value && [Line(e)][1..] == [];
  }

  lemma {:induction false} NopsHaveNone(f: Diff, n: nat, kind: Kind)
    requires kind != Nop && n <= |f| && forall i :: 0 <= i < n ==> f[i].kind == Nop
    ensures Values(f, kind) == Values(f[n..], kind)
    decreases n
  {
    if n == 0 {
      assert f[0..] == f;
    } else {
      NopsHaveNone(f[1..], n - 1, kind);
      assert f[1..][n - 1..] == f[n..];
    }
  }

  /** When nothing is skipped every entry is a line. */
  lemma {:induction false} NothingCollapsed(f: Diff)
    requires !Skips(f)
    ensures Render(f) == Lines(f)
    decreases |f|
  {
    hide Line, Lines, Collapse;
    if f == [] {
      LinesConcat([], []);
    } else if f[0].kind == Nop {
      var n := NopRun(f);
      RunRenders(f, n);
      NothingCollapsed(f[n..]);
      ShortRun(f[..n]);
      LinesConcat(f[..n], f[n..]);
    } else {
      NothingCollapsed(f[1..]);
      LinesConcat([f[0]], f[1..]);
    }
  }

  lemma ShortRun(run: Diff)
    requires |run| < NOP_LINES_TO_COLLAPSE + 3
    ensures Collapse(run) == Lines(run)
  {
    hide Lines;
  }

  lemma LinesConcat(a: Diff, b: Diff)
    ensures Lines(a + b) == Lines(a) + Lines(b) && Lines([]) == []
    ensures |a| == 1 ==> Lines(a) == [Line(a[0])]
  {
    hide Line;
  }

  // ---------------------------------------------------------------------------------------
  // The printer: entries are stored last line first
  // ---------------------------------------------------------------------------------------

  /** The first i lines of f are rendered; no unchanged run crosses index i. */
  ghost predicate Settled(f: Diff, i: nat, rendered: seq<string>, skipped: bool) {
    i <= |f| && Render(f) == rendered + Render(f[i..]) && (Skips(f) <==> skipped || Skips(f[i..]))
  }

  /** Up to index i - count f is settled; of the `count` unchanged lines since, at most 5 are printed. */
  ghost predicate InRun(f: Diff, i: nat, count: nat, rendered: seq<string>, skipped: bool, base: seq<string>) {
    && count <= i <= |f| && Settled(f, i - count, base, skipped)
    && (forall j :: i - count <= j < i ==> f[j].kind == Nop)
    && rendered == base + Lines(f[i - count..i - count + Shown(count)])
  }

  function Shown(count: nat): nat {
    if count < NOP_LINES_TO_COLLAPSE then count else NOP_LINES_TO_COLLAPSE
  }

  /** The lines the printer adds when a run ends. */
  function Flush(run: Diff): seq<string>
    requires run != []
  {
    var n := |run|;
    if n == NOP_LINES_TO_COLLAPSE + 1 then [Line(run[n - 1])]
    else if n == NOP_LINES_TO_COLLAPSE + 2 then [Line(run[n - 2]), Line(run[n - 1])]
    else if n >= NOP_LINES_TO_COLLAPSE + 3 then ["...", Line(run[n - 1])]
    else []
  }

  /** What is printed during a run and what is added at its end make up the collapsed run. */
  lemma FlushCompletes(run: Diff)
    requires run != []
    ensures Lines(run[..Shown(|run|)]) + Flush(run) == Collapse(run)
  {
    hide Line;
  }

  lemma NopRunIs(f: Diff, n: nat)
    requires n <= |f| && (forall i :: 0 <= i < n ==> f[i].kind == Nop) && (n < |f| ==> f[n].kind != Nop)
    ensures NopRun(f) == n
  {
  }

  lemma RunEnds(f: Diff, i: nat, count: nat, rendered: seq<string>, skipped: bool, base: seq<string>)
    requires InRun(f, i, count, rendered, skipped, base) && count > 0 && (i == |f| || f[i].kind != Nop)
    ensures count <= i && forall j :: i - count <= j < i ==> f[j].kind == Nop
    ensures Settled(f, i, rendered + Flush(f[i - count..i]), skipped || count >= NOP_LINES_TO_COLLAPSE + 3)
  {
    hide Render, Skips, Collapse, Flush, Lines, NopRun;
    var rest, run := f[i - count..], f[i - count..i];
    NopRunIs(rest, count);
    RunRenders(rest, count);
    assert rest[..count] == run && rest[count..] == f[i..];
    FlushCompletes(run);
    assert run[..Shown(count)] == f[i - count..i - count + Shown(count)];
    Assoc(base, Lines(run[..Shown(count)]), Flush(run));
    Assoc(base, Collapse(run), Render(f[i..]));
  }

  lemma Assoc(a: seq<string>, b: seq<string>, c: seq<string>)
    ensures (a + b) + c == a + (b + c)
  {
  }

  lemma RunGrows(f: Diff, i: nat, count: nat, rendered: seq<string>, skipped: bool, base: seq<string>)
    requires InRun(f, i, count, rendered, skipped, base) && i < |f| && f[i].kind == Nop
    ensures InRun(f, i + 1, count + 1,
                  if count < NOP_LINES_TO_COLLAPSE then rendered + [Line(f[i])] else rendered, skipped, base)
  {
    hide Settled, Line;
    var from := i - count;
    assert i + 1 - (count + 1) == from;
    if count < NOP_LINES_TO_COLLAPSE {
      assert Lines(f[from..i + 1]) == Lines(f[from..i]) + [Line(f[i])];
    }
  }

  lemma LineSettles(f: Diff, i: nat, rendered: seq<string>, skipped: bool)
    requires Settled(f, i, rendered, skipped) && i < |f| && f[i].kind != Nop
    ensures Settled(f, i + 1, rendered + [Line(f[i])], skipped)
  {
    hide Line;
    assert f[i..][1..] == f[i + 1..];
  }

  /** A settled prefix is a run of no lines. */
  lemma NoRun(f: Diff, i: nat, rendered: seq<string>, skipped: bool, base: seq<string>)
    requires i <= |f|
    ensures Settled(f, i, rendered, skipped) ==> InRun(f, i, 0, rendered, skipped, rendered)
    ensures InRun(f, i, 0, rendered, skipped, base) ==> Settled(f, i, rendered, skipped)
  {
    hide Render, Skips;
    assert Lines(f[i..i]) == [];
    assert rendered + [] == rendered && base + [] == base;
  }

  lemma NothingSettled(f: Diff)
    ensures InRun(f, 0, 0, [], false, [])
  {
    assert Settled(f, 0, [], false);
    NoRun(f, 0, [], false, []);
  }

  lemma AllSettled(f: Diff, rendered: seq<string>, skipped: bool, count: nat, base: seq<string>)
    requires Settled(f, |f|, rendered, skipped) || (count == 0 && InRun(f, |f|, 0, rendered, skipped, base))
    ensures rendered == Render(f) && (skipped <==> Skips(f))
  {
    NoRun(f, |f|, rendered, skipped, base);
  }

  /** The printer's branches at the end of a run: the run's last line is stored at diffIdx + 1. */
  method FlushRun(diffEntries: Diff, diffIdx: int, nopCount: nat, before: seq<string>, skippedBefore: bool,
      ghost f: Diff)
    returns (rendered: seq<string>, skipped: bool)
    requires -1 <= diffIdx < |diffEntries| && 0 < nopCount <= |diffEntries| - 1 - diffIdx
    requires |f| == |diffEntries| && forall i :: 0 <= i < |f| ==> f[i] == diffEntries[|f| - 1 - i]
    requires var i := |f| - 1 - diffIdx; forall j :: i - nopCount <= j < i ==> f[j].kind == Nop
    ensures var i := |f| - 1 - diffIdx; rendered == before + Flush(f[i - nopCount..i])
    ensures skipped == (skippedBefore || nopCount >= NOP_LINES_TO_COLLAPSE + 3)
  {
    ghost var i := |f| - 1 - diffIdx;
    assert f[i - 1] == diffEntries[diffIdx + 1] && (nopCount > 1 ==> f[i - 2] == diffEntries[diffIdx + 2]);
    rendered, skipped := before, skippedBefore;
    if nopCount == NOP_LINES_TO_COLLAPSE + 1 {
      rendered := rendered + ["  " + diffEntries[diffIdx + 1].value];
    } else if nopCount == NOP_LINES_TO_COLLAPSE + 2 {
      rendered := rendered + ["  " + diffEntries[diffIdx + 2].value, "  " + diffEntries[diffIdx + 1].value];
    } else if nopCount >= NOP_LINES_TO_COLLAPSE + 3 {
      rendered := rendered + ["...", "  " + diffEntries[diffIdx + 1].value];
      skipped := true;
    }
  }

  method PrintMyersDiff(diffEntries: Diff) returns (rendered: seq<string>, skipped: bool)
    ensures rendered == Render(Reverse(diffEntries))
    ensures skipped <==> exists i :: LongRunAt(Reverse(diffEntries), i)
  {
    hide Settled, InRun, LongRunAt, Reverse, Render, Skips, Flush;
    ghost var f := Reverse(diffEntries);
    ReverseAt(diffEntries);
    SkipsMeansLongRun(f);
    rendered, skipped := [], false;
    var nopCount := 0;
    ghost var base: seq<string> := [];
    var diffIdx := |diffEntries| - 1;
    ghost var i := 0;
    NothingSettled(f);
    while diffIdx >= 0
      invariant i == |diffEntries| - 1 - diffIdx <= |f|
      invariant InRun(f, i, nopCount, rendered, skipped, base)
      invariant nopCount > 0 <==> i > 0 && f[i - 1].kind == Nop
    {
      var diffEntry := diffEntries[diffIdx];
      if diffIdx < |diffEntries| - 1 && diffEntries[diffIdx + 1].kind == Nop && diffEntry.kind != Nop {
        RunEnds(f, i, nopCount, rendered, skipped, base);
        rendered, skipped := FlushRun(diffEntries, diffIdx, nopCount, rendered, skipped, f);
        nopCount := 0;
        base := rendered;
        NoRun(f, i, rendered, skipped, base);
      }
      NoRun(f, i, rendered, skipped, base);
      if diffEntry.kind == Nop {
        RunGrows(f, i, nopCount, rendered, skipped, base);
        if nopCount < NOP_LINES_TO_COLLAPSE {
          rendered := rendered + ["  " + diffEntry.value];
        }
        nopCount := nopCount + 1;
      } else {
        LineSettles(f, i, rendered, skipped);
        if diffEntry.kind == Insert {
          rendered := rendered + ["+ " + diffEntry.value];
        } else {
          rendered := rendered + ["- " + diffEntry.value];
        }
        NoRun(f, i + 1, rendered, skipped, base);
        base := rendered;
      }
      diffIdx, i := diffIdx - 1, i + 1;
    }
    if nopCount > 0 {
      RunEnds(f, |f|, nopCount, rendered, skipped, base);
      rendered, skipped := FlushRun(diffEntries, -1, nopCount, rendered, skipped, f);
    }
    AllSettled(f, rendered, skipped, nopCount, base);
  }
}
