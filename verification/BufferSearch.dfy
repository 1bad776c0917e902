/** Substring search in a buffer (crates/runtime/src/builtin/buffer.js:1017-1071). */
module BufferSearch {
  import opened Utf8

  /** The units compared: bytes, or big-endian 16-bit units for the UTF-16 encodings. */
  function Units(s: seq<byte>, wide: bool): (u: seq<int>)
    ensures |u| == if wide then |s| / 2 else |s|
  {
    if wide then seq(|s| / 2, i requires 0 <= i < |s| / 2 => UnitOf(s, i)) else s
  }

  function UnitOf(s: seq<byte>, i: nat): int
    requires i < |s| / 2
  {
    WideUnit(s[2 * i], s[2 * i + 1])
  }

  function WideUnit(high: int, low: int): int {
    high * 256 + low
  }

  predicate MatchAt(a: seq<int>, v: seq<int>, k: int) {
    0 <= k <= |a| - |v| && a[k..k + |v|] == v
  }

  /** The least match at or after `from`. */
  ghost predicate FirstMatch(a: seq<int>, v: seq<int>, from: int, k: int) {
    from <= k && MatchAt(a, v, k) && forall j :: from <= j < k ==> !MatchAt(a, v, j)
  }

  /** The greatest match at or before `from`. */
  ghost predicate LastMatch(a: seq<int>, v: seq<int>, from: int, k: int) {
    k <= from && MatchAt(a, v, k) && forall j :: k < j <= from ==> !MatchAt(a, v, j)
  }

  method ArrayIndexOf(arr: seq<byte>, val: seq<byte>, byteOffset: nat, wide: bool, forward: bool) returns (r: int)
    requires val != []
    ensures wide && (|arr| < 2 || |val| < 2) ==> r == -1
    ensures !(wide && (|arr| < 2 || |val| < 2)) ==>
              var a, v, from := Units(arr, wide), Units(val, wide), if wide then byteOffset / 2 else byteOffset;
              if forward then
                if r == -1 then forall k :: from <= k ==> !MatchAt(a, v, k)
                else FirstMatch(a, v, from, if wide then r / 2 else r) && (wide ==> r % 2 == 0)
              else
                if r == -1 then forall k :: k <= from ==> !MatchAt(a, v, k) else LastMatch(a, v, from, r)
  {
    if wide && (|arr| < 2 || |val| < 2) {
      return -1;
    }
    var indexSize := if wide then 2 else 1;
    var a, v := Units(arr, wide), Units(val, wide);
    var offset := if wide then byteOffset / 2 else byteOffset;
    if forward {
      r := Forward(a, v, offset);
      if r != -1 { r := r * indexSize; }
    } else {
      r := Backward(a, v, offset);
    }
  }

  /** The candidate is dropped by moving the index back behind its start. */
  method Forward(a: seq<int>, v: seq<int>, offset: nat) returns (r: int)
    requires v != []
    ensures r >= -1
    ensures if r == -1 then forall k :: offset <= k ==> !MatchAt(a, v, k) else FirstMatch(a, v, offset, r)
  {
    var foundIndex := -1;
    var i: int := offset;
    while i < |a|
      invariant offset <= i && (foundIndex == -1 || offset <= foundIndex < i <= |a|)
      invariant forall k :: offset <= k < (if foundIndex == -1 then i else foundIndex) ==> !MatchAt(a, v, k)
      invariant foundIndex != -1 ==>
                  i - foundIndex < |v| && forall j :: 0 <= j < i - foundIndex ==> a[foundIndex + j] == v[j]
      decreases |a| - (if foundIndex == -1 then i else foundIndex), |a| - i
    {
      if a[i] == v[if foundIndex == -1 then 0 else i - foundIndex] {
        if foundIndex == -1 { foundIndex := i; }
        if i - foundIndex + 1 == |v| {
          return foundIndex;
        }
      } else {
        if foundIndex != -1 {
          assert MatchAt(a, v, foundIndex) ==> a[foundIndex..foundIndex + |v|][i - foundIndex] == v[i - foundIndex];
          i := i - (i - foundIndex);
        }
        foundIndex := -1;
      }
      i := i + 1;
    }
    r := -1;
  }

  method Backward(a: seq<int>, v: seq<int>, offset: nat) returns (r: int)
    ensures r >= -1
    ensures if r == -1 then forall k :: k <= offset ==> !MatchAt(a, v, k) else LastMatch(a, v, offset, r)
  {
    var i: int := offset;
    if offset + |v| > |a| { i := |a| - |v|; }
    while i >= 0
      invariant i <= offset && i + |v| <= |a|
      invariant forall k :: i < k <= offset ==> !MatchAt(a, v, k)
    {
      var found := true;
      var j := 0;
      while j < |v|
        invariant 0 <= j <= |v| && forall l :: 0 <= l < j ==> a[i + l] == v[l]
      {
        if a[i + j] != v[j] {
          assert a[i..i + |v|][j] != v[j];
          found := false;
          break;
        }
        j := j + 1;
      }
      if found { return i; }
      i := i - 1;
    }
    r := -1;
  }

  /** A match of 16-bit units at unit k is a match of the bytes at byte 2k; the needle's odd last
      byte is not compared. */
  lemma UnitMatchIsByteMatch(arr: seq<byte>, val: seq<byte>, k: int)
    ensures MatchAt(Units(arr, true), Units(val, true), k) <==>
            MatchAt(Units(arr[..|arr| / 2 * 2], false), Units(val[..|val| / 2 * 2], false), 2 * k)
  {
    var n := |val| / 2;
    if 0 <= k <= |arr| / 2 - n {
      if MatchAt(Units(arr, true), Units(val, true), k) {
        UnitsToBytes(arr, val, k);
      } else if MatchAt(Units(arr[..|arr| / 2 * 2], false), Units(val[..n * 2], false), 2 * k) {
        BytesToUnits(arr, val, k);
      }
    }
  }

  lemma UnitsToBytes(arr: seq<byte>, val: seq<byte>, k: nat)
    requires MatchAt(Units(arr, true), Units(val, true), k)
    ensures MatchAt(arr[..|arr| / 2 * 2], val[..|val| / 2 * 2], 2 * k)
  {
    var a, v, n := Units(arr, true), Units(val, true), |val| / 2;
    forall j | 0 <= j < 2 * n
      ensures arr[2 * k + j] == val[j]
    {
      var m := j / 2;
      assert a[k..k + n][m] == v[m];
      assert WideUnit(arr[2 * (k + m)], arr[2 * (k + m) + 1]) == WideUnit(val[2 * m], val[2 * m + 1]);
      assert j == 2 * m || j == 2 * m + 1;
    }
  }

  lemma BytesToUnits(arr: seq<byte>, val: seq<byte>, k: nat)
    requires |val| / 2 + k <= |arr| / 2 && MatchAt(arr[..|arr| / 2 * 2], val[..|val| / 2 * 2], 2 * k)
    ensures MatchAt(Units(arr, true), Units(val, true), k)
  {
    hide Units, WideUnit;
    var n := |val| / 2;
    var bytes := arr[..|arr| / 2 * 2][2 * k..2 * k + 2 * n];
    assert bytes == val[..2 * n];
    forall j | 0 <= j < n
      ensures Units(arr, true)[k + j] == Units(val, true)[j]
    {
      UnitAt(arr, k + j);
      UnitAt(val, j);
      assert bytes[2 * j] == arr[2 * (k + j)] && bytes[2 * j + 1] == arr[2 * (k + j) + 1];
    }
    assert Units(arr, true)[k..k + n] == Units(val, true);
  }

  lemma UnitAt(s: seq<byte>, i: nat)
    requires i < |s| / 2
    ensures Units(s, true)[i] == WideUnit(s[2 * i], s[2 * i + 1])
  {
    hide WideUnit;
    UnitIs(s, i);
  }

  lemma UnitIs(s: seq<byte>, i: nat)
    requires i < |s| / 2
    ensures Units(s, true)[i] == UnitOf(s, i)
  {
    hide UnitOf;
  }

  // ---------------------------------------------------------------------------------------
  // The index of a backward search over 16-bit units
  // ---------------------------------------------------------------------------------------

  /** The bytes compared: an odd last one is not. */
  function Whole(s: seq<byte>): seq<int> {
    s[..|s| / 2 * 2]
  }

  /** The greatest match on a unit boundary at or before unit `from`, as a byte position. */
  ghost predicate LastUnitMatch(arr: seq<byte>, val: seq<byte>, from: int, byteIndex: int) {
    && byteIndex % 2 == 0 && byteIndex / 2 <= from && MatchAt(Whole(arr), Whole(val), byteIndex)
    && forall k :: byteIndex / 2 < k <= from ==> !MatchAt(Whole(arr), Whole(val), 2 * k)
  }

  /** The match the search finds begins at byte 2r; the r it returns is that position exactly for a match
      at the start of the buffer. */
  lemma BackwardIndex(arr: seq<byte>, val: seq<byte>, from: int, r: int)
    requires LastMatch(Units(arr, true), Units(val, true), from, r)
    ensures LastUnitMatch(arr, val, from, 2 * r)
    ensures LastUnitMatch(arr, val, from, r) <==> r == 0
  {
    hide Units, MatchAt;
    UnitMatchIsByteMatch(arr, val, r);
    WideBytes(arr);
    WideBytes(val);
    forall k | r < k <= from
      ensures !MatchAt(Whole(arr), Whole(val), 2 * k)
    {
      UnitMatchIsByteMatch(arr, val, k);
    }
    NotNegative(Units(arr, true), Units(val, true), r);
  }

  lemma WideBytes(s: seq<byte>)
    ensures Units(s[..|s| / 2 * 2], false) == Whole(s)
  {
  }

  lemma NotNegative(a: seq<int>, v: seq<int>, k: int)
    requires MatchAt(a, v, k)
    ensures k >= 0
  {
  }

  /** The last "A" of " A" in UTF-16 stands at byte 2; the search returns 1. */
  method BackwardExample() returns (r: int)
    ensures r == 1 && LastUnitMatch([0, 32, 0, 65], [0, 65], 2, 2)
  {
    r := ArrayIndexOf([0, 32, 0, 65], [0, 65], 4, true, false);
    var a, v := Units([0, 32, 0, 65], true), Units([0, 65], true);
    UnitAt([0, 32, 0, 65], 0);
    UnitAt([0, 32, 0, 65], 1);
    UnitAt([0, 65], 0);
    assert a == [32, 65] && v == [65];
    assert MatchAt(a, v, 1) && !MatchAt(a, v, 2);
    assert LastMatch(a, v, 2, 1);
    BackwardIndex([0, 32, 0, 65], [0, 65], 2, 1);
  }
}
