/** The line diff behind assertion messages: a greedy forward pass over a reused frontier
    array, a snapshot of it per level, and a backtrack over the snapshots
    (crates/runtime/src/builtin/assert.js:280-373). */
module MyersDiff {

  datatype Kind = Nop | Insert | Delete
  datatype Entry<L> = Entry(kind: Kind, value: L)

  /** Two lists of lines, the relation that pairs them, and the line shown for a related pair. */
  datatype Problem<!L> = Problem(actual: seq<L>, expected: seq<L>, related: (L, L) -> bool, shown: (L, L) -> L)

  /** Lines x and y both exist and are related. */
  predicate Related<L>(p: Problem<L>, x: int, y: int) {
    0 <= x < |p.actual| && 0 <= y < |p.expected| && p.related(p.actual[x], p.expected[y])
  }

  predicate AreDiffLinesEqual(a: string, e: string, checkCommaDisparity: bool) {
    a == e || (checkCommaDisparity && (a + "," == e || a == e + ","))
  }

  predicate EndsWithComma(line: string) {
    |line| > 0 && line[|line| - 1] == ','
  }

  /** The line shown for an unchanged pair: the one that carries the comma. */
  function NopValue(a: string, e: string, checkCommaDisparity: bool): string {
    if !checkCommaDisparity || EndsWithComma(a) then a else e
  }

  function TextProblem(actual: seq<string>, expected: seq<string>, checkCommaDisparity: bool): Problem<string> {
    Problem(actual, expected,
            (a, e) => AreDiffLinesEqual(a, e, checkCommaDisparity), (a, e) => NopValue(a, e, checkCommaDisparity))
  }

  // ---------------------------------------------------------------------------------------
  // Reference notions, independent of the algorithm: edit scripts and alignments
  // ---------------------------------------------------------------------------------------

  /** `script`, read front to back, walks from (x, y) to the end of both texts. */
  ghost predicate EditScript<L>(p: Problem<L>, script: seq<Entry<L>>, x: nat, y: nat)
    decreases |script|
  {
    if script == [] then
      x == |p.actual| && y == |p.expected|
    else
      match script[0].kind
      case Nop => Related(p, x, y) && script[0].value == p.shown(p.actual[x], p.expected[y])
          && EditScript(p, script[1..], x + 1, y + 1)
      case Insert => x < |p.actual| && script[0].value == p.actual[x] && EditScript(p, script[1..], x + 1, y)
      case Delete => y < |p.expected| && script[0].value == p.expected[y] && EditScript(p, script[1..], x, y + 1)
  }

  function Edits<L>(script: seq<Entry<L>>): nat {
    if script == [] then 0 else (if script[0].kind == Nop then 0 else 1) + Edits(script[1..])
  }

  /** The values of the entries whose kind is not `dropped`. */
  function Side<L>(script: seq<Entry<L>>, dropped: Kind): seq<L> {
    if script == [] then []
    else (if script[0].kind == dropped then [] else [script[0].value]) + Side(script[1..], dropped)
  }

  function Reverse<T>(s: seq<T>): seq<T> {
    if s == [] then [] else [s[|s| - 1]] + Reverse(s[..|s| - 1])
  }

  lemma EmptyScript<L>(p: Problem<L>)
    ensures EditScript(p, Reverse([]), |p.actual|, |p.expected|) && Edits(Reverse<Entry<L>>([])) == 0
  {
  }

  /** Pushing an entry on a reversed script puts it in front of the script. */
  lemma PushEntry<L>(p: Problem<L>, result: seq<Entry<L>>, e: Entry<L>, x: nat, y: nat)
    requires x <= |p.actual| && y <= |p.expected|
    requires match e.kind
             case Nop => Related(p, x, y) && e.value == p.shown(p.actual[x], p.expected[y]) &&
                         EditScript(p, Reverse(result), x + 1, y + 1)
             case Insert => x < |p.actual| && e.value == p.actual[x] && EditScript(p, Reverse(result), x + 1, y)
             case Delete => y < |p.expected| && e.value == p.expected[y] && EditScript(p, Reverse(result), x, y + 1)
    ensures EditScript(p, Reverse(result + [e]), x, y)
    ensures Edits(Reverse(result + [e])) == Edits(Reverse(result)) + if e.kind == Nop then 0 else 1
  {
    assert (result + [e])[..|result|] == result;
    assert Reverse(result + [e])[1..] == Reverse(result);
  }

  /** A monotone alignment that pairs related lines only. */
  ghost predicate Alignment<L>(p: Problem<L>, al: seq<(int, int)>) {
    && (forall i :: 0 <= i < |al| ==> Related(p, al[i].0, al[i].1))
    && (forall i, j :: 0 <= i < j < |al| ==> al[i].0 < al[j].0 && al[i].1 < al[j].1)
  }

  /** The lines an alignment leaves unpaired: each is one insertion or deletion. */
  function Unpaired<L>(p: Problem<L>, al: seq<(int, int)>): int {
    |p.actual| + |p.expected| - 2 * |al|
  }

  // ---------------------------------------------------------------------------------------
  // The frontier: what the forward pass stores. Level d and diagonal k of the source are the
  // paths with a insertions and b deletions, d == a + b and k == a - b.
  // ---------------------------------------------------------------------------------------

  function Slide<L>(p: Problem<L>, x: nat, k: int): (r: nat)
    ensures x <= r && !Related(p, r, r - k)
    decreases |p.actual| - x
  {
    if Related(p, x, x - k) then Slide(p, x + 1, k) else x
  }

  lemma {:induction false} SlideCrossesRelated<L>(p: Problem<L>, x: nat, k: int, i: int)
    requires x <= i < Slide(p, x, k)
    ensures Related(p, i, i - k)
    decreases |p.actual| - x
  {
    if x < i { SlideCrossesRelated(p, x + 1, k, i); }
  }

  /** Where the path starts on its diagonal, before it slides along related lines. */
  function Start(a: nat, b: nat, afterDelete: nat, afterInsert: nat): nat {
    if a == 0 && b == 0 then 0
    else if a == 0 || (b != 0 && afterInsert < afterDelete) then afterDelete
    else afterInsert + 1
  }

  function Frontier<L>(p: Problem<L>, a: nat, b: nat): (x: nat)
    ensures x - (a - b) >= 0
    decreases a + b
  {
    Slide(p, StartOf(p, a, b), a - b)
  }

  function StartOf<L>(p: Problem<L>, a: nat, b: nat): (x: nat)
    ensures x - (a - b) >= 0
    decreases a + b, 0
  {
    Start(a, b, if b == 0 then 0 else Frontier(p, a, b - 1), if a == 0 then 0 else Frontier(p, a - 1, b))
  }

  lemma Unfold<L>(p: Problem<L>, a: nat, b: nat)
    ensures Frontier(p, a, b) == Slide(p, StartOf(p, a, b), a - b)
    ensures StartOf(p, a, b) ==
            Start(a, b, if b == 0 then 0 else Frontier(p, a, b - 1), if a == 0 then 0 else Frontier(p, a - 1, b))
  {
  }

  predicate Done<L>(p: Problem<L>, x: int, k: int) {
    x >= |p.actual| && x - k >= |p.expected|
  }

  /** No path with fewer than d edits, nor one with d edits and fewer than `ins` insertions,
      reaches the end of both texts. */
  ghost predicate NoneBelow<L>(p: Problem<L>, d: nat, ins: nat) {
    forall a: nat, b: nat :: a + b < d || (a + b == d && a < ins) ==> !Done(p, Frontier(p, a, b), a - b)
  }

  lemma NoneBelowGrows<L>(p: Problem<L>, d: nat, ins: nat)
    requires ins <= d && NoneBelow(p, d, ins) && !Done(p, Frontier(p, ins, d - ins), ins - (d - ins))
    ensures NoneBelow(p, d, ins + 1) && (ins == d ==> NoneBelow(p, d + 1, 0))
  {
    hide Frontier;
  }

  // ---------------------------------------------------------------------------------------
  // Furthest reaching: the frontier dominates every alignment
  // ---------------------------------------------------------------------------------------

  /** The frontier neither starts behind its predecessors nor stops where it could slide. */
  lemma OneEdit<L>(p: Problem<L>, a: nat, b: nat)
    ensures Frontier(p, a, b) + 1 <= Frontier(p, a + 1, b) && Frontier(p, a, b) <= Frontier(p, a, b + 1)
    ensures !Related(p, Frontier(p, a, b), Frontier(p, a, b) - (a - b))
  {
  }

  /** da insertions and db deletions from a point at or behind the frontier stay behind it. */
  lemma {:induction false} EditsStayBehind<L>(p: Problem<L>, a: nat, b: nat, x: int, da: nat, db: nat)
    requires x <= Frontier(p, a, b)
    ensures x + da <= Frontier(p, a + da, b + db)
    decreases da + db
  {
    hide Frontier;
    if da > 0 {
      OneEdit(p, a, b);
      EditsStayBehind(p, a + 1, b, x + 1, da - 1, db);
    } else if db > 0 {
      OneEdit(p, a, b);
      EditsStayBehind(p, a, b + 1, x, da, db - 1);
    }
  }

  /** Every alignment inside the rectangle up to (x, y) is dominated by the frontier of the
      paths that make as many insertions and deletions as it leaves lines unpaired. */
  lemma {:induction false} FrontierDominates<L>(p: Problem<L>, al: seq<(int, int)>, x: nat, y: nat)
    requires AlignmentUpTo(p, al, x, y)
    ensures |al| <= x && |al| <= y && x <= Frontier(p, x - |al|, y - |al|)
    decreases |al|
  {
    hide Frontier;
    if al == [] {
      EditsStayBehind(p, 0, 0, 0, x, y);
    } else {
      var n := |al| - 1;
      var front, u, w := al[..n], al[n].0, al[n].1;
      FrontierDominates(p, front, u, w);
      OneEdit(p, u - n, w - n);
      EditsStayBehind(p, u - n, w - n, u + 1, x - u - 1, y - w - 1);
    }
  }

  /** An alignment inside the rectangle up to (x, y). */
  ghost predicate AlignmentUpTo<L>(p: Problem<L>, al: seq<(int, int)>, x: int, y: int) {
    Alignment(p, al) && forall i :: 0 <= i < |al| ==> al[i].0 < x && al[i].1 < y
  }

  /** A slide extends an alignment by one pair per diagonal move. */
  lemma {:induction false} SlideAlignment<L>(p: Problem<L>, front: seq<(int, int)>, start: nat, k: int)
    returns (al: seq<(int, int)>)
    requires AlignmentUpTo(p, front, start, start - k)
    ensures var end := Slide(p, start, k);
            AlignmentUpTo(p, al, end, end - k) && |al| == |front| + end - start
    decreases |p.actual| - start
  {
    if Related(p, start, start - k) {
      al := SlideAlignment(p, front + [(start, start - k)], start + 1, k);
    } else {
      al := front;
    }
  }

  /** The path behind a frontier point is an alignment with one pair per diagonal move. */
  lemma {:induction false} PathAlignment<L>(p: Problem<L>, a: nat, b: nat) returns (al: seq<(int, int)>)
    ensures var x := Frontier(p, a, b);
            AlignmentUpTo(p, al, x, x - (a - b)) && |al| == x - a
    decreases a + b
  {
    al := StartAlignment(p, a, b);
    al := SlideAlignment(p, al, StartOf(p, a, b), a - b);
  }

  lemma {:induction false} StartAlignment<L>(p: Problem<L>, a: nat, b: nat) returns (al: seq<(int, int)>)
    ensures var x := StartOf(p, a, b);
            AlignmentUpTo(p, al, x, x - (a - b)) && |al| == x - a
    decreases a + b, 0
  {
    Unfold(p, a, b);
    if a == 0 && b == 0 {
      al := [];
    } else if a == 0 || (b != 0 && Frontier(p, a - 1, b) < Frontier(p, a, b - 1)) {
      al := PathAlignment(p, a, b - 1);
    } else {
      al := PathAlignment(p, a - 1, b);
    }
  }

  /** The first frontier point to pass the end of both texts is the end itself, although
      frontier points may lie outside the grid, and no alignment is cheaper. */
  lemma {:induction false} FirstHit<L>(p: Problem<L>, a: nat, b: nat)
    requires Done(p, Frontier(p, a, b), a - b) && NoneBelow(p, a + b, a)
    ensures a - b == |p.actual| - |p.expected| && Frontier(p, a, b) == |p.actual|
    ensures forall al :: Alignment(p, al) ==> a + b <= Unpaired(p, al)
  {
    forall al | Alignment(p, al)
      ensures a + b <= Unpaired(p, al)
    {
      FrontierDominates(p, al, |p.actual|, |p.expected|);
    }
    var al := PathAlignment(p, a, b);
    assert a + b <= Unpaired(p, al);
  }

  /** Some path with at most N + M edits is hit. */
  lemma {:induction false} SomeHit<L>(p: Problem<L>)
    ensures !NoneBelow(p, |p.actual| + |p.expected| + 1, 0)
  {
    FrontierDominates(p, [], |p.actual|, |p.expected|);
  }

  // ---------------------------------------------------------------------------------------
  // What an edit script means
  // ---------------------------------------------------------------------------------------

  /** Restricted to nop and insert a script pairs up with the actual text, restricted to nop
      and delete with the expected one; only the line shown for a pair may differ from them. */
  lemma {:induction false} ScriptSides<L>(p: Problem<L>, script: seq<Entry<L>>, x: nat, y: nat, same: (L, L) -> bool)
    requires x <= |p.actual| && y <= |p.expected| && EditScript(p, script, x, y)
    requires forall l :: same(l, l)
    requires forall l, m :: p.related(l, m) ==> same(p.shown(l, m), l) && same(p.shown(l, m), m)
    ensures var a, e := Side(script, Delete), Side(script, Insert);
            && |a| == |p.actual| - x && |e| == |p.expected| - y
            && (forall i :: 0 <= i < |a| ==> same(a[i], p.actual[x + i]))
            && (forall i :: 0 <= i < |e| ==> same(e[i], p.expected[y + i]))
    decreases |script|
  {
    if script != [] {
      match script[0].kind
      case Nop => ScriptSides(p, script[1..], x + 1, y + 1, same);
      case Insert => ScriptSides(p, script[1..], x + 1, y, same);
      case Delete => ScriptSides(p, script[1..], x, y + 1, same);
    }
  }

  /** Without comma checking the two sides of a script are exactly the two texts; with it, they
      are the two texts up to a trailing comma per line. */
  lemma TextSides(actual: seq<string>, expected: seq<string>, comma: bool, script: seq<Entry<string>>)
    requires EditScript(TextProblem(actual, expected, comma), script, 0, 0)
    ensures !comma ==> Side(script, Delete) == actual && Side(script, Insert) == expected
    ensures var a, e := Side(script, Delete), Side(script, Insert);
            && |a| == |actual| && |e| == |expected|
            && (forall i :: 0 <= i < |a| ==> AreDiffLinesEqual(a[i], actual[i], comma))
            && (forall i :: 0 <= i < |e| ==> AreDiffLinesEqual(e[i], expected[i], comma))
  {
    hide AreDiffLinesEqual, Side, EditScript, TextProblem;
    SidesUpToCommas(actual, expected, comma, script);
    if !comma {
      ExactLines(Side(script, Delete), actual);
      ExactLines(Side(script, Insert), expected);
    }
  }

  lemma SidesUpToCommas(actual: seq<string>, expected: seq<string>, comma: bool, script: seq<Entry<string>>)
    requires EditScript(TextProblem(actual, expected, comma), script, 0, 0)
    ensures var a, e := Side(script, Delete), Side(script, Insert);
            && |a| == |actual| && |e| == |expected|
            && (forall i :: 0 <= i < |a| ==> AreDiffLinesEqual(a[i], actual[i], comma))
            && (forall i :: 0 <= i < |e| ==> AreDiffLinesEqual(e[i], expected[i], comma))
  {
    hide AreDiffLinesEqual, NopValue, Side, EditScript;
    var p := TextProblem(actual, expected, comma);
    forall l: string ensures AreDiffLinesEqual(l, l, comma) { SameLine(l, comma); }
    forall l: string, m: string | p.related(l, m)
      ensures AreDiffLinesEqual(p.shown(l, m), l, comma) && AreDiffLinesEqual(p.shown(l, m), m, comma)
    {
      ShownLine(l, m, comma);
    }
    ScriptSides(p, script, 0, 0, (l, m) => AreDiffLinesEqual(l, m, comma));
  }

  lemma SameLine(l: string, comma: bool)
    ensures AreDiffLinesEqual(l, l, comma)
  {
  }

  /** The line shown for a pair is either of them, up to a trailing comma when those are checked. */
  lemma ShownLine(l: string, m: string, comma: bool)
    requires AreDiffLinesEqual(l, m, comma)
    ensures AreDiffLinesEqual(NopValue(l, m, comma), l, comma) && AreDiffLinesEqual(NopValue(l, m, comma), m, comma)
  {
  }

  /** The line shown for a pair is one of the two, and carries a comma if either of them does. */
  lemma ShownCarriesComma(l: string, m: string, comma: bool)
    requires AreDiffLinesEqual(l, m, comma)
    ensures var shown := NopValue(l, m, comma);
            (shown == l || shown == m) && (EndsWithComma(shown) <==> EndsWithComma(l) || EndsWithComma(m))
  {
  }

  lemma ExactLines(a: seq<string>, b: seq<string>)
    requires |a| == |b| && forall i :: 0 <= i < |a| ==> AreDiffLinesEqual(a[i], b[i], false)
    ensures a == b
  {
  }

  /** Every edit script comes from an alignment that leaves as many lines unpaired as the
      script has edits, so a bound over alignments is a bound over scripts. */
  lemma {:induction false} ScriptAlignment<L>(p: Problem<L>, script: seq<Entry<L>>, x: nat, y: nat)
      returns (al: seq<(int, int)>)
    requires x <= |p.actual| && y <= |p.expected| && EditScript(p, script, x, y)
    ensures Alignment(p, al) && forall i :: 0 <= i < |al| ==> al[i].0 >= x && al[i].1 >= y
    ensures Edits(script) == |p.actual| - x + |p.expected| - y - 2 * |al|
    decreases |script|
  {
    if script == [] {
      al := [];
    } else {
      match script[0].kind
      case Nop =>
        al := ScriptAlignment(p, script[1..], x + 1, y + 1);
        al := [(x, y)] + al;
      case Insert => al := ScriptAlignment(p, script[1..], x + 1, y);
      case Delete => al := ScriptAlignment(p, script[1..], x, y + 1);
    }
  }

  // ---------------------------------------------------------------------------------------
  // Which of the shortest scripts: the one that, read from the ends of the texts, prefers
  // deletions to insertions and insertions to unchanged lines
  // ---------------------------------------------------------------------------------------

  function Rank(kind: Kind): nat {
    match kind
    case Nop => 0
    case Insert => 1
    case Delete => 2
  }

  /** Where the two lists of entries first differ, `best` has the entry that ranks higher. */
  ghost predicate Preferred<L>(best: seq<Entry<L>>, other: seq<Entry<L>>) {
    best == other || exists i :: Outranks(best, other, i)
  }

  ghost predicate Outranks<L>(best: seq<Entry<L>>, other: seq<Entry<L>>, i: int) {
    0 <= i < |best| && i < |other| && best[..i] == other[..i] && Rank(best[i].kind) > Rank(other[i].kind)
  }

  /** Of all scripts with as few edits, `result`, which lists its script backwards, is the preferred one. */
  ghost predicate MostPreferred<L(!new)>(p: Problem<L>, result: seq<Entry<L>>) {
    forall r :: EditScript(p, Reverse(r), 0, 0) && Edits(Reverse(r)) == Edits(Reverse(result)) ==> Preferred(result, r)
  }

  /** The entry is the first of a way back from (x, y). */
  ghost predicate StepsBack<L>(p: Problem<L>, e: Entry<L>, x: int, y: int) {
    match e.kind
    case Nop => Related(p, x - 1, y - 1) && e.value == p.shown(p.actual[x - 1], p.expected[y - 1])
    case Insert => 0 < x <= |p.actual| && e.value == p.actual[x - 1]
    case Delete => 0 < y <= |p.expected| && e.value == p.expected[y - 1]
  }

  /** `r`, read front to back, walks from (x, y) back to the start of both texts. */
  ghost predicate WalksBack<L>(p: Problem<L>, r: seq<Entry<L>>, x: int, y: int) {
    if r == [] then
      x == 0 && y == 0
    else
      StepsBack(p, r[0], x, y) &&
      match r[0].kind
      case Nop => WalksBack(p, r[1..], x - 1, y - 1)
      case Insert => WalksBack(p, r[1..], x - 1, y)
      case Delete => WalksBack(p, r[1..], x, y - 1)
  }

  lemma ReverseOfCons<T>(h: T, s: seq<T>)
    ensures Reverse([h] + s) == Reverse(s) + [h]
  {
    if s == [] {
      assert [h] + s == [h];
    } else {
      ReverseOfCons(h, s[..|s| - 1]);
      assert ([h] + s)[..|s|] == [h] + s[..|s| - 1];
    }
  }

  lemma {:induction false} ReverseAt<T>(s: seq<T>)
    ensures |Reverse(s)| == |s| && forall i :: 0 <= i < |s| ==> Reverse(s)[i] == s[|s| - 1 - i]
  {
    if s != [] {
      ReverseAt(s[..|s| - 1]);
    }
  }

  lemma ReverseTwice<T>(s: seq<T>)
    ensures Reverse(Reverse(s)) == s
  {
    if s != [] {
      ReverseOfCons(s[|s| - 1], Reverse(s[..|s| - 1]));
      ReverseTwice(s[..|s| - 1]);
    }
  }

  lemma EditsOfReverse<L>(s: seq<Entry<L>>)
    ensures Edits(Reverse(s)) == Edits(s)
  {
    if s != [] {
      var n := |s| - 1;
      EditsOfReverse(s[..n]);
      EditsOfPush(s[..n], s[n]);
      assert s[..n] + [s[n]] == s;
    }
  }

  lemma EditsOfPush<L>(s: seq<Entry<L>>, e: Entry<L>)
    ensures Edits(s + [e]) == Edits(s) + if e.kind == Nop then 0 else 1
  {
    if s != [] {
      assert (s + [e])[1..] == s[1..] + [e];
    }
  }

  /** A script for the rest of the texts, reversed, walks from their ends back to where it began. */
  lemma {:induction false} ScriptWalksBack<L>(p: Problem<L>, script: seq<Entry<L>>, behind: seq<Entry<L>>,
                                               x: nat, y: nat)
    requires EditScript(p, script, x, y) && WalksBack(p, behind, x, y)
    ensures WalksBack(p, Reverse(script) + behind, |p.actual|, |p.expected|)
    decreases |script|
  {
    if script == [] {
      assert Reverse(script) + behind == behind;
    } else {
      var e, rest := script[0], script[1..];
      var behind' := [e] + behind;
      assert behind'[1..] == behind;
      match e.kind {
        case Nop => ScriptWalksBack(p, rest, behind', x + 1, y + 1);
        case Insert => ScriptWalksBack(p, rest, behind', x + 1, y);
        case Delete => ScriptWalksBack(p, rest, behind', x, y + 1);
      }
      assert [e] + rest == script;
      ReverseOfCons(e, rest);
      assert Reverse(script) + behind == Reverse(rest) + behind';
    }
  }

  lemma CandidateWalksBack<L>(p: Problem<L>, r: seq<Entry<L>>)
    requires EditScript(p, Reverse(r), 0, 0)
    ensures WalksBack(p, r, |p.actual|, |p.expected|) && Edits(Reverse(r)) == Edits(r)
  {
    hide EditScript, Reverse, Edits;
    ScriptWalksBack(p, Reverse(r), [], 0, 0);
    ReverseTwice(r);
    assert r + [] == r;
    EditsOfReverse(r);
  }

  lemma EditsBoundDiagonal<L>(p: Problem<L>, r: seq<Entry<L>>, x: int, y: int)
    requires WalksBack(p, r, x, y)
    ensures 0 - Edits(r) <= x - y <= Edits(r)
  {
  }

  /** No way back with a insertions and b deletions begins ahead of the frontier. */
  lemma {:induction false} WalkIsBehind<L>(p: Problem<L>, r: seq<Entry<L>>, x: int, y: int, a: nat, b: nat)
    requires WalksBack(p, r, x, y) && Edits(r) == a + b && x - y == a - b
    ensures x <= Frontier(p, a, b)
    decreases |r|
  {
    hide Frontier;
    if r != [] {
      match r[0].kind
      case Nop =>
        WalkIsBehind(p, r[1..], x - 1, y - 1, a, b);
        OneEdit(p, a, b);
      case Insert =>
        EditsBoundDiagonal(p, r[1..], x - 1, y);
        WalkIsBehind(p, r[1..], x - 1, y, a - 1, b);
        OneEdit(p, a - 1, b);
      case Delete =>
        EditsBoundDiagonal(p, r[1..], x, y - 1);
        WalkIsBehind(p, r[1..], x, y - 1, a, b - 1);
        OneEdit(p, a, b - 1);
    }
  }

  /** Every way back from (x, y) with `edits` edits takes an entry of at most this rank first. */
  ghost predicate TopRank<L(!new)>(p: Problem<L>, x: int, y: int, edits: nat, kind: Kind) {
    forall r: seq<Entry<L>> ::
      WalksBack(p, r, x, y) && Edits(r) == edits && r != [] ==> Rank(r[0].kind) <= Rank(kind)
  }

  /** Ahead of where its path enters the diagonal, a way back can only follow the diagonal. */
  lemma OnlyNop<L(!new)>(p: Problem<L>, x: nat, y: nat, a: nat, b: nat)
    requires x - y == a - b && StartOf(p, a, b) < x
    ensures TopRank(p, x, y, a + b, Nop)
  {
    hide Frontier, StartOf;
    forall r: seq<Entry<L>> | WalksBack(p, r, x, y) && Edits(r) == a + b && r != []
      ensures r[0].kind == Nop
    {
      Unfold(p, a, b);
      match r[0].kind
      case Nop =>
      case Insert =>
        EditsBoundDiagonal(p, r[1..], x - 1, y);
        WalkIsBehind(p, r[1..], x - 1, y, a - 1, b);
      case Delete =>
        EditsBoundDiagonal(p, r[1..], x, y - 1);
        WalkIsBehind(p, r[1..], x, y - 1, a, b - 1);
    }
  }

  /** A deletion is impossible where the path with one deletion less stays behind. */
  lemma NoDeletion<L(!new)>(p: Problem<L>, x: nat, y: nat, a: nat, b: nat)
    requires x - y == a - b && (b > 0 ==> Frontier(p, a, b - 1) < x)
    ensures TopRank(p, x, y, a + b, Insert)
  {
    hide Frontier;
    forall r: seq<Entry<L>> | WalksBack(p, r, x, y) && Edits(r) == a + b && r != []
      ensures r[0].kind != Delete
    {
      if r[0].kind == Delete {
        EditsBoundDiagonal(p, r[1..], x, y - 1);
        WalkIsBehind(p, r[1..], x, y - 1, a, b - 1);
      }
    }
  }

  /** `result` leads from the ends of the texts to (x, y) with `edits` edits left of `best`, and
      every way back with `best` edits starts with it or is outranked by it. */
  ghost predicate Leads<L(!new)>(p: Problem<L>, best: nat, result: seq<Entry<L>>, x: int, y: int, edits: nat) {
    forall r :: WalksBack(p, r, |p.actual|, |p.expected|) && Edits(r) == best ==>
      Continues(p, result, r, x, y, edits) || exists i :: Outranks(result, r, i)
  }

  ghost predicate Continues<L>(p: Problem<L>, result: seq<Entry<L>>, r: seq<Entry<L>>, x: int, y: int, edits: nat) {
    result <= r && WalksBack(p, r[|result|..], x, y) && Edits(r[|result|..]) == edits
  }

  lemma LeadsFromEnd<L(!new)>(p: Problem<L>, best: nat)
    ensures Leads(p, best, [], |p.actual|, |p.expected|, best)
  {
    forall r: seq<Entry<L>> | WalksBack(p, r, |p.actual|, |p.expected|) && Edits(r) == best
      ensures Continues(p, [], r, |p.actual|, |p.expected|, best)
    {
      assert r[0..] == r;
    }
  }

  /** The position and the edits left ahead of an entry that leads back to (x, y). */
  function Ahead(kind: Kind, x: int, y: int, edits: nat): (int, int, nat) {
    match kind
    case Nop => (x + 1, y + 1, edits)
    case Insert => (x + 1, y, edits + 1)
    case Delete => (x, y + 1, edits + 1)
  }

  /** Taking an entry of the top rank first, a way back that goes on otherwise is outranked. */
  lemma ContinuesOn<L(!new)>(p: Problem<L>, result: seq<Entry<L>>, e: Entry<L>, r: seq<Entry<L>>,
                             x: int, y: int, edits: nat)
    requires var (x0, y0, edits0) := Ahead(e.kind, x, y, edits);
             && Continues(p, result, r, x0, y0, edits0) && TopRank(p, x0, y0, edits0, e.kind)
             && StepsBack(p, e, x0, y0)
    ensures Continues(p, result + [e], r, x, y, edits) || Outranks(result + [e], r, |result|)
  {
    hide Edits;
    var n := |result|;
    var rest := r[n..];
    EditsOfStart(rest);
    assert rest != [];
    assert r[n] == rest[0];
    if rest[0].kind == e.kind {
      assert rest[0] == e;
      assert result + [e] <= r && rest[1..] == r[n + 1..];
    } else {
      assert (result + [e])[..n] == result == r[..n];
    }
  }

  lemma EditsOfStart<L>(s: seq<Entry<L>>)
    ensures Edits(s) == if s == [] then 0 else (if s[0].kind == Nop then 0 else 1) + Edits(s[1..])
  {
  }

  /** Pushing an entry of the top rank keeps the lead. */
  lemma LeadsOn<L(!new)>(p: Problem<L>, best: nat, result: seq<Entry<L>>, e: Entry<L>, x: int, y: int, edits: nat)
    requires var (x0, y0, edits0) := Ahead(e.kind, x, y, edits);
             Leads(p, best, result, x0, y0, edits0) && TopRank(p, x0, y0, edits0, e.kind) && StepsBack(p, e, x0, y0)
    ensures Leads(p, best, result + [e], x, y, edits)
  {
    hide TopRank, StepsBack, WalksBack, Edits, Continues;
    var (x0, y0, edits0) := Ahead(e.kind, x, y, edits);
    forall r | WalksBack(p, r, |p.actual|, |p.expected|) && Edits(r) == best
      ensures Continues(p, result + [e], r, x, y, edits) || exists i :: Outranks(result + [e], r, i)
    {
      if Continues(p, result, r, x0, y0, edits0) {
        ContinuesOn(p, result, e, r, x, y, edits);
      } else {
        var i :| Outranks(result, r, i);
        StillOutranks(result, e, r, i);
      }
    }
  }

  lemma StillOutranks<L>(result: seq<Entry<L>>, e: Entry<L>, r: seq<Entry<L>>, i: int)
    requires Outranks(result, r, i)
    ensures Outranks(result + [e], r, i)
  {
    assert (result + [e])[..i] == result[..i];
  }

  /** A lead to the start of both texts is the preferred script. */
  lemma LeadToStart<L(!new)>(p: Problem<L>, result: seq<Entry<L>>)
    requires Leads(p, Edits(Reverse(result)), result, 0, 0, 0)
    ensures MostPreferred(p, result)
  {
    hide EditScript, Edits, Reverse;
    forall r | EditScript(p, Reverse(r), 0, 0) && Edits(Reverse(r)) == Edits(Reverse(result))
      ensures Preferred(result, r)
    {
      CandidateWalksBack(p, r);
      if Continues(p, result, r, 0, 0, 0) {
        assert r[|result|..] == [];
        assert r == result;
      }
    }
  }


  /** Exchanging a deletion with the insertion behind it gives a script as short. */
  lemma {:induction false} SwapEdits<L>(p: Problem<L>, script: seq<Entry<L>>, x: nat, y: nat, i: nat)
    requires EditScript(p, script, x, y) && i + 1 < |script|
    requires script[i].kind == Delete && script[i + 1].kind == Insert
    ensures var s := script[i := script[i + 1]][i + 1 := script[i]];
            EditScript(p, s, x, y) && Edits(s) == Edits(script)
    decreases i
  {
    var s := script[i := script[i + 1]][i + 1 := script[i]];
    if i == 0 {
      assert s[1..][1..] == script[1..][1..];
      assert s[1..][0] == script[0] && script[1..][0] == script[1];
    } else {
      var rest := script[1..];
      assert s[1..] == rest[i - 1 := rest[i]][i := rest[i - 1]];
      match script[0].kind
      case Nop => SwapEdits(p, rest, x + 1, y + 1, i - 1);
      case Insert => SwapEdits(p, rest, x + 1, y, i - 1);
      case Delete => SwapEdits(p, rest, x, y + 1, i - 1);
    }
  }

  /** A script with a deletion in front of an insertion is outranked by the one with the two exchanged. */
  lemma SwapOutranks<L(!new)>(p: Problem<L>, result: seq<Entry<L>>, i: nat)
    requires EditScript(p, Reverse(result), 0, 0) && i + 1 < |result|
    requires result[i].kind == Insert && result[i + 1].kind == Delete
    ensures !MostPreferred(p, result)
  {
    hide EditScript, Reverse, Edits;
    var other := result[i := result[i + 1]][i + 1 := result[i]];
    var j := |result| - 2 - i;
    ReverseAt(result);
    ReverseOfSwap(result, i);
    SwapEdits(p, Reverse(result), 0, 0, j);
    assert other[i].kind == Delete;
    assert !Preferred(result, other);
  }

  /** In the preferred script the insertions of a replaced block come first. */
  lemma InsertionsFirst<L(!new)>(p: Problem<L>, result: seq<Entry<L>>)
    requires EditScript(p, Reverse(result), 0, 0) && MostPreferred(p, result)
    ensures forall i :: 0 <= i < |result| - 1 ==> !(result[i].kind == Insert && result[i + 1].kind == Delete)
  {
    hide EditScript, MostPreferred;
    forall i | 0 <= i < |result| - 1 && result[i].kind == Insert && result[i + 1].kind == Delete
      ensures false
    {
      SwapOutranks(p, result, i);
    }
  }

  /** Only one script is preferred to all others with as few edits. */
  lemma OnlyOnePreferred<L(!new)>(p: Problem<L>, r: seq<Entry<L>>, s: seq<Entry<L>>)
    requires EditScript(p, Reverse(r), 0, 0) && EditScript(p, Reverse(s), 0, 0)
    requires Edits(Reverse(r)) == Edits(Reverse(s)) && MostPreferred(p, r) && MostPreferred(p, s)
    ensures r == s
  {
    hide EditScript, Reverse, Edits;
    assert Preferred(r, s) && Preferred(s, r);
    if r != s {
      var i, j :| Outranks(r, s, i) && Outranks(s, r, j);
      OutranksOnce(r, s, i, j);
    }
  }

  lemma OutranksOnce<L>(r: seq<Entry<L>>, s: seq<Entry<L>>, i: int, j: int)
    requires Outranks(r, s, i)
    ensures !Outranks(s, r, j)
  {
    if 0 <= j < i { assert r[..i][j] == s[..i][j]; }
  }

  lemma ReverseOfSwap<T>(s: seq<T>, i: nat)
    requires i + 1 < |s|
    ensures var j := |s| - 2 - i;
            && |Reverse(s)| == |s|
            && Reverse(s[i := s[i + 1]][i + 1 := s[i]])
               == Reverse(s)[j := Reverse(s)[j + 1]][j + 1 := Reverse(s)[j]]
  {
    hide Reverse;
    var w := s[i := s[i + 1]][i + 1 := s[i]];
    ReverseAt(s);
    ReverseAt(w);
  }

  // ---------------------------------------------------------------------------------------
  // The algorithm
  // ---------------------------------------------------------------------------------------

  /** `v` holds the frontier of level d for the paths with fewer than `bound` insertions. */
  ghost predicate Holds<L>(p: Problem<L>, v: seq<int>, d: int, bound: int) {
    var max := |p.actual| + |p.expected|;
    && d <= max && |v| == 2 * max + 1
    && forall a: nat, b: nat :: a + b == d && a < bound ==> v[a - b + max] == Frontier(p, a, b)
  }

  /** The snapshot taken when level d starts: the frontier of level d - 1, zeros at level 0. */
  ghost predicate Snapshot<L>(p: Problem<L>, v: seq<int>, d: nat) {
    && |v| == 2 * (|p.actual| + |p.expected|) + 1 && Holds(p, v, d - 1, d)
    && (d == 0 ==> forall i :: 0 <= i < |v| ==> v[i] == 0)
  }

  /** The value the source's choice between the two neighbours in `v` starts the path from. */
  lemma ReadNeighbours<L>(p: Problem<L>, v: seq<int>, a: nat, b: nat)
    requires Holds(p, v, a + b - 1, a + b)
    requires a + b == 0 ==> forall i :: 0 <= i < |v| ==> v[i] == 0
    requires 0 < |p.actual| + |p.expected| && a + b <= |p.actual| + |p.expected|
    ensures var d, k, offset := a + b, a - b, a - b + |p.actual| + |p.expected|;
            if k == -d || (k != d && v[offset - 1] < v[offset + 1])
            then v[offset + 1] == StartOf(p, a, b) && (d > 0 ==> b > 0 && Frontier(p, a, b - 1) == v[offset + 1])
            else v[offset - 1] + 1 == StartOf(p, a, b) && a > 0 && Frontier(p, a - 1, b) == v[offset - 1]
  {
    hide Frontier, StartOf;
    Unfold(p, a, b);
  }

  /** The forward pass reads the start of the path and slides to its frontier point. */
  lemma ReadStart<L>(p: Problem<L>, v: seq<int>, a: nat, b: nat)
    requires Snapshot(p, v, a + b) || (a > 0 && Holds(p, v, a + b - 1, a + b))
    requires 0 < |p.actual| + |p.expected| && a + b <= |p.actual| + |p.expected|
    ensures var d, k, offset := a + b, a - b, a - b + |p.actual| + |p.expected|;
            var x := if k == -d || (k != d && v[offset - 1] < v[offset + 1]) then v[offset + 1] else v[offset - 1] + 1;
            x >= 0 && x - k >= 0 && Slide(p, x, k) == Frontier(p, a, b)
  {
    hide Frontier, StartOf;
    Unfold(p, a, b);
    ReadNeighbours(p, v, a, b);
  }

  /** A fresh level has stored nothing yet. */
  lemma HoldsNothing<L>(p: Problem<L>, v: seq<int>, d: nat)
    requires d <= |p.actual| + |p.expected| && |v| == 2 * (|p.actual| + |p.expected|) + 1
    ensures Holds(p, v, d, 0)
  {
  }

  lemma FirstSnapshot<L>(p: Problem<L>, v: seq<int>)
    requires |v| == 2 * (|p.actual| + |p.expected|) + 1 && forall i :: 0 <= i < |v| ==> v[i] == 0
    ensures Snapshot(p, v, 0) && NoneBelow(p, 0, 0)
  {
  }

  /** For two empty texts the empty script is the only one and needs no edit. */
  lemma EmptyTexts<L(!new)>(p: Problem<L>)
    requires |p.actual| + |p.expected| == 0
    ensures EditScript(p, Reverse([]), 0, 0) && MostPreferred(p, [])
    ensures forall al :: Alignment(p, al) ==> Edits(Reverse<Entry<L>>([])) <= Unpaired(p, al)
  {
    forall al | Alignment(p, al)
      ensures |al| == 0
    {
      FrontierDominates(p, al, 0, 0);
    }
    LeadsFromEnd(p, 0);
    LeadToStart(p, []);
  }

  /** Which neighbour the backtrack picks: the one the forward pass extended. */
  lemma ReadPrevious<L>(p: Problem<L>, v: seq<int>, a: nat, b: nat)
    requires Snapshot(p, v, a + b) && 0 < |p.actual| + |p.expected| && a + b <= |p.actual| + |p.expected|
    ensures |v| == 2 * (|p.actual| + |p.expected|) + 1
    ensures var d, k, max := a + b, a - b, |p.actual| + |p.expected|;
            var prevK := if k == -d || (k != d && v[k + max - 1] < v[k + max + 1]) then k + 1 else k - 1;
            var prevX, start := v[prevK + max], StartOf(p, a, b);
            && start <= Frontier(p, a, b) == Slide(p, start, k)
            && (if prevK == k + 1 then start == prevX else start == prevX + 1)
            && (a + b == 0 ==> start == 0 && prevK == k + 1)
            && (a + b > 0 ==> if prevK == k + 1 then b > 0 && Frontier(p, a, b - 1) == prevX
                              else a > 0 && Frontier(p, a - 1, b) == prevX)
  {
    hide Frontier, StartOf;
    Unfold(p, a, b);
    ReadNeighbours(p, v, a, b);
  }

  /** Storing the path with `ins` insertions keeps the previous level and extends this one. */
  lemma WriteFrontier<L>(p: Problem<L>, v: seq<int>, d: nat, ins: nat)
    requires Holds(p, v, d - 1, d) && Holds(p, v, d, ins) && ins <= d
    ensures var w := v[2 * ins - d + |p.actual| + |p.expected| := Frontier(p, ins, d - ins)];
            Holds(p, w, d - 1, d) && Holds(p, w, d, ins + 1)
  {
    hide Frontier, StartOf;
  }

  /** Where the backtrack takes an insertion, the path with one deletion less stays behind. */
  lemma BehindInsertion<L>(p: Problem<L>, v: seq<int>, a: nat, b: nat)
    requires Snapshot(p, v, a + b) && 0 < |p.actual| + |p.expected| && a + b <= |p.actual| + |p.expected|
    requires var d, k, max := a + b, a - b, |p.actual| + |p.expected|;
             !(k == -d || (k != d && v[k + max - 1] < v[k + max + 1]))
    ensures b > 0 ==> Frontier(p, a, b - 1) < StartOf(p, a, b)
  {
    hide Frontier, StartOf;
    Unfold(p, a, b);
    ReadNeighbours(p, v, a, b);
  }

  /** The loop that walks a diagonal back, to the point its path entered the diagonal at. */
  method UnwindDiagonal<L(!new)>(p: Problem<L>, entries: seq<Entry<L>>, endX: nat, endY: nat, prevX: int, prevY: int,
      ghost start: nat, ghost a: nat, ghost b: nat, ghost best: nat)
    returns (result: seq<Entry<L>>, x: nat, y: nat)
    requires endX <= |p.actual| && endY <= |p.expected| && EditScript(p, Reverse(entries), endX, endY)
    requires start == StartOf(p, a, b) && endX - endY == a - b && Leads(p, best, entries, endX, endY, a + b)
    requires start <= endX <= Slide(p, start, endX - endY)
    requires var startY := start - (endX - endY);
             startY >= 0 && ((start == prevX && prevY < startY) || (prevX < start && startY == prevY))
    ensures x == start && y == start - (endX - endY)
    ensures EditScript(p, Reverse(result), x, y) && Edits(Reverse(result)) == Edits(Reverse(entries))
    ensures Leads(p, best, result, x, y, a + b)
  {
    hide EditScript, Edits, Reverse, Slide, StartOf, Leads, TopRank;
    result, x, y := entries, endX, endY;
    while x > prevX && y > prevY
      invariant start <= x <= endX && x - y == endX - endY
      invariant EditScript(p, Reverse(result), x, y) && Edits(Reverse(result)) == Edits(Reverse(entries))
      invariant Leads(p, best, result, x, y, a + b)
      decreases x
    {
      OnlyNop(p, x, y, a, b);
      SlideCrossesRelated(p, start, endX - endY, x - 1);
      PushEntry(p, result, Entry(Nop, p.shown(p.actual[x - 1], p.expected[y - 1])), x - 1, y - 1);
      LeadsOn(p, best, result, Entry(Nop, p.shown(p.actual[x - 1], p.expected[y - 1])), x - 1, y - 1, a + b);
      result := result + [Entry(Nop, p.shown(p.actual[x - 1], p.expected[y - 1]))];
      x, y := x - 1, y - 1;
    }
  }

  /** The edit that led onto the diagonal. */
  method PushEdit<L(!new)>(p: Problem<L>, entries: seq<Entry<L>>, endX: nat, endY: nat, prevX: int,
                     ghost edits: nat, ghost best: nat)
    returns (result: seq<Entry<L>>, x: nat, y: nat)
    requires endX <= |p.actual| && endY <= |p.expected| && EditScript(p, Reverse(entries), endX, endY)
    requires if endX > prevX then endX > 0 else endY > 0
    requires edits > 0 && Leads(p, best, entries, endX, endY, edits)
    requires endX > prevX ==> TopRank(p, endX, endY, edits, Insert)
    ensures if endX > prevX then x == endX - 1 && y == endY else x == endX && y == endY - 1
    ensures EditScript(p, Reverse(result), x, y) && Edits(Reverse(result)) == Edits(Reverse(entries)) + 1
    ensures Leads(p, best, result, x, y, edits - 1)
  {
    hide EditScript, Edits, Reverse, Leads;
    if endX > prevX {
      LeadsOn(p, best, entries, Entry(Insert, p.actual[endX - 1]), endX - 1, endY, edits - 1);
      PushEntry(p, entries, Entry(Insert, p.actual[endX - 1]), endX - 1, endY);
      result, x, y := entries + [Entry(Insert, p.actual[endX - 1])], endX - 1, endY;
    } else {
      LeadsOn(p, best, entries, Entry(Delete, p.expected[endY - 1]), endX, endY - 1, edits - 1);
      PushEntry(p, entries, Entry(Delete, p.expected[endY - 1]), endX, endY - 1);
      result, x, y := entries + [Entry(Delete, p.expected[endY - 1])], endX, endY - 1;
    }
  }

  /** One level of the backtrack: from the frontier point of a path to that of the path it extended. */
  method BacktrackLevel<L(!new)>(p: Problem<L>, v: seq<int>, diffLevel: nat, entries: seq<Entry<L>>,
                                 endX: nat, endY: nat, ghost a: nat, ghost b: nat, ghost best: nat)
    returns (result: seq<Entry<L>>, x: nat, y: nat, ghost a': nat, ghost b': nat)
    requires Snapshot(p, v, diffLevel) && 0 < |p.actual| + |p.expected| && diffLevel <= |p.actual| + |p.expected|
    requires endX <= |p.actual| && endY <= |p.expected| && EditScript(p, Reverse(entries), endX, endY)
    requires a + b == diffLevel && endX - endY == a - b && Frontier(p, a, b) == endX
    requires Leads(p, best, entries, endX, endY, diffLevel)
    ensures Leads(p, best, result, x, y, if diffLevel == 0 then 0 else diffLevel - 1)
    ensures x <= |p.actual| && y <= |p.expected| && EditScript(p, Reverse(result), x, y)
    ensures if diffLevel == 0 then x == 0 && y == 0 && Edits(Reverse(result)) == Edits(Reverse(entries))
            else && a' + b' == diffLevel - 1 && x - y == a' - b' && Frontier(p, a', b') == x
                 && Edits(Reverse(result)) == Edits(Reverse(entries)) + 1
  {
    hide Frontier, StartOf, EditScript, Edits, Reverse, Slide, Snapshot, Leads, TopRank;
    ReadPrevious(p, v, a, b);
    var max := |p.actual| + |p.expected|;
    var diagonalIndex := endX - endY;
    var offset := diagonalIndex + max;
    var prevDiagonalIndex;
    if diagonalIndex + diffLevel == 0 || (diagonalIndex != diffLevel && v[offset - 1] < v[offset + 1]) {
      prevDiagonalIndex := diagonalIndex + 1;
    } else {
      prevDiagonalIndex := diagonalIndex - 1;
    }
    var prevX := v[prevDiagonalIndex + max];
    var prevY := prevX - prevDiagonalIndex;
    result, x, y := UnwindDiagonal(p, entries, endX, endY, prevX, prevY, StartOf(p, a, b), a, b, best);
    a', b' := a, b;
    if diffLevel > 0 {
      a', b' := if x > prevX then a - 1 else a, if x > prevX then b else b - 1;
      if x > prevX {
        BehindInsertion(p, v, a, b);
        NoDeletion(p, x, y, a, b);
      }
      result, x, y := PushEdit(p, result, x, y, prevX, diffLevel, best);
    }
  }

  method MyersBacktrack<L(!new)>(p: Problem<L>, trace: seq<seq<int>>, ghost ins: nat, ghost del: nat)
    returns (result: seq<Entry<L>>)
    requires |p.actual| + |p.expected| > 0 && |trace| == ins + del + 1 && ins - del == |p.actual| - |p.expected|
    requires ins + del <= |p.actual| + |p.expected|
    requires (forall d :: 0 <= d < |trace| ==> Snapshot(p, trace[d], d)) && Frontier(p, ins, del) == |p.actual|
    ensures EditScript(p, Reverse(result), 0, 0) && Edits(Reverse(result)) == |trace| - 1
    ensures MostPreferred(p, result)
    ensures forall i :: 0 <= i < |result| - 1 ==> !(result[i].kind == Insert && result[i + 1].kind == Delete)
  {
    hide Frontier, StartOf, EditScript, Edits, Reverse, Snapshot, Leads, MostPreferred;
    LeadsFromEnd(p, |trace| - 1);
    var x: nat, y: nat := |p.actual|, |p.expected|;
    result := [];
    EmptyScript(p);
    ghost var a: nat, b: nat := ins, del;
    var diffLevel := |trace| - 1;
    while diffLevel >= 0
      invariant x <= |p.actual| && y <= |p.expected| && EditScript(p, Reverse(result), x, y)
      invariant -1 <= diffLevel && Leads(p, |trace| - 1, result, x, y, if diffLevel == -1 then 0 else diffLevel)
      invariant if diffLevel == -1 then x == y == 0 && Edits(Reverse(result)) == |trace| - 1 else
                  && 0 <= diffLevel == a + b < |trace| && x - y == a - b && Frontier(p, a, b) == x
                  && Edits(Reverse(result)) == |trace| - 1 - diffLevel
    {
      result, x, y, a, b := BacktrackLevel(p, trace[diffLevel], diffLevel, result, x, y, a, b, |trace| - 1);
      diffLevel := diffLevel - 1;
    }
    LeadToStart(p, result);
    InsertionsFirst(p, result);
  }

  /** The loop that follows related lines down a diagonal. */
  method FollowDiagonal<L>(p: Problem<L>, start: nat, k: int) returns (x: nat)
    requires start - k >= 0
    ensures x == Slide(p, start, k)
  {
    x := start;
    var y := x - k;
    while x < |p.actual| && y < |p.expected| && p.related(p.actual[x], p.expected[y])
      invariant 0 <= y == x - k && Slide(p, x, k) == Slide(p, start, k)
      decreases |p.actual| - x
    {
      x, y := x + 1, y + 1;
    }
  }

  /** One level of the forward pass, up to the first diagonal that reaches both ends. */
  method ForwardLevel<L>(p: Problem<L>, v: array<int>, diffLevel: int) returns (hit: bool, ghost ins: nat)
    requires v.Length == 2 * (|p.actual| + |p.expected|) + 1 && 0 <= diffLevel <= |p.actual| + |p.expected|
    requires |p.actual| + |p.expected| > 0 ==> Snapshot(p, v[..], diffLevel) && NoneBelow(p, diffLevel, 0)
    modifies v
    ensures |p.actual| + |p.expected| == 0 ==> !hit
    ensures |p.actual| + |p.expected| > 0 && !hit ==>
              Snapshot(p, v[..], diffLevel + 1) && NoneBelow(p, diffLevel + 1, 0)
    ensures hit ==> && ins <= diffLevel && NoneBelow(p, diffLevel, ins)
                    && Done(p, Frontier(p, ins, diffLevel - ins), ins - (diffLevel - ins))
  {
    hide Frontier, StartOf, Slide, Holds, NoneBelow;
    var max := |p.actual| + |p.expected|;
    var diagonalIndex: int := -diffLevel;
    ins := 0;
    HoldsNothing(p, v[..], diffLevel);
    while diagonalIndex <= diffLevel
      invariant diagonalIndex == 2 * ins - diffLevel && 0 <= ins <= diffLevel + 1
      invariant max > 0 && ins == 0 ==> Snapshot(p, v[..], diffLevel)
      invariant max > 0 ==> Holds(p, v[..], diffLevel - 1, diffLevel) && Holds(p, v[..], diffLevel, ins)
      invariant max > 0 ==> NoneBelow(p, diffLevel, ins)
      invariant max > 0 && ins == diffLevel + 1 ==> NoneBelow(p, diffLevel + 1, 0)
    {
      var offset := diagonalIndex + max;
      ghost var before := v[..];
      if max > 0 {
        ReadStart(p, before, ins, diffLevel - ins);
      }
      var x;
      if diagonalIndex == -diffLevel || (diagonalIndex != diffLevel && v[offset - 1] < v[offset + 1]) {
        if offset + 1 == v.Length {
          // Two empty texts: the element read is undefined, every comparison with it fails.
          v[offset] := 0;
          diagonalIndex, ins := diagonalIndex + 2, ins + 1;
          continue;
        }
        x := v[offset + 1];
      } else {
        x := v[offset - 1] + 1;
      }
      x := FollowDiagonal(p, x, diagonalIndex);
      var y := x - diagonalIndex;

      v[offset] := x;
      if x >= |p.actual| && y >= |p.expected| {
        return true, ins;
      }
      WriteFrontier(p, before, diffLevel, ins);
      assert v[..] == before[2 * ins - diffLevel + max := x];
      NoneBelowGrows(p, diffLevel, ins);
      diagonalIndex, ins := diagonalIndex + 2, ins + 1;
    }
    assert ins == diffLevel + 1;
    hit := false;
  }

  method MyersDiff<L(!new)>(p: Problem<L>) returns (result: seq<Entry<L>>)
    ensures |p.actual| + |p.expected| == 0 ==> result == []
    ensures EditScript(p, Reverse(result), 0, 0)
    ensures forall al :: Alignment(p, al) ==> Edits(Reverse(result)) <= Unpaired(p, al)
    ensures MostPreferred(p, result)
    ensures forall i :: 0 <= i < |result| - 1 ==> !(result[i].kind == Insert && result[i + 1].kind == Delete)
  {
    hide Frontier, StartOf, EditScript, Edits, Reverse, Snapshot, NoneBelow, Alignment, MostPreferred;
    var max := |p.actual| + |p.expected|;
    var v := new int[2 * max + 1](_ => 0);
    var trace: seq<seq<int>> := [];
    FirstSnapshot(p, v[..]);

    for diffLevel := 0 to max + 1
      invariant |trace| == diffLevel
      invariant max > 0 ==> forall d :: 0 <= d < |trace| ==> Snapshot(p, trace[d], d)
      invariant max > 0 ==> Snapshot(p, v[..], diffLevel) && NoneBelow(p, diffLevel, 0)
    {
      trace := trace + [v[..]];
      var hit, ins := ForwardLevel(p, v, diffLevel);
      if hit {
        FirstHit(p, ins, diffLevel - ins);
        result := MyersBacktrack(p, trace, ins, diffLevel - ins);
        return;
      }
    }
    if max > 0 {
      SomeHit(p);
    } else {
      EmptyTexts(p);
    }
    result := [];
  }

  /** Restated over scripts: no edit script has fewer edits than the one returned. */
  lemma {:induction false} NoShorterScript<L>(p: Problem<L>, best: nat, script: seq<Entry<L>>)
    requires forall al :: Alignment(p, al) ==> best <= Unpaired(p, al)
    requires EditScript(p, script, 0, 0)
    ensures best <= Edits(script)
  {
    var al := ScriptAlignment(p, script, 0, 0);
  }

  /** The entry point for lists of lines: the result, reversed, rebuilds both texts (exactly, or
      up to trailing commas) with the fewest edits any alignment of the two texts allows, and of the
      scripts with as few it is the preferred one, with insertions first in every replaced block. */
  method DiffLines(actual: seq<string>, expected: seq<string>, checkCommaDisparity: bool)
    returns (result: seq<Entry<string>>)
    ensures var script := Reverse(result);
            var a, e := Side(script, Delete), Side(script, Insert);
            && |a| == |actual| && |e| == |expected|
            && (forall i :: 0 <= i < |a| ==> AreDiffLinesEqual(a[i], actual[i], checkCommaDisparity))
            && (forall i :: 0 <= i < |e| ==> AreDiffLinesEqual(e[i], expected[i], checkCommaDisparity))
            && (!checkCommaDisparity ==> a == actual && e == expected)
    ensures var p := TextProblem(actual, expected, checkCommaDisparity);
            (forall al :: Alignment(p, al) ==> Edits(Reverse(result)) <= Unpaired(p, al)) && MostPreferred(p, result)
    ensures forall i :: 0 <= i < |result| - 1 ==> !(result[i].kind == Insert && result[i + 1].kind == Delete)
  {
    hide MostPreferred;
    result := MyersDiff(TextProblem(actual, expected, checkCommaDisparity));
    TextSides(actual, expected, checkCommaDisparity, Reverse(result));
  }
}
