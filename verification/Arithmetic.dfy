/** Floor and ceiling division by a positive step, and Python's `range`. */
module Arithmetic {
  /** The seconds of a UTC day. */
  const DAY: int := 86_400

  /** Python's `-(-a // b)`; for `b > 0` Dafny's `/` floors as Python's `//` does. */
  function CeilDiv(a: int, b: int): int
    requires 0 < b
  {
    -(-a / b)
  }

  function Max(a: int, b: int): int {
    if a < b then b else a
  }

  function Min(a: int, b: int): int {
    if a < b then a else b
  }

  /** `range(from, to, step)`. */
  function Range(from: int, to: int, step: int): (r: seq<int>)
    requires 0 < step
    ensures (forall i | 0 <= i < |r| :: from <= r[i] < to)
    decreases Max(0, to - from)
  {
    if from >= to then [] else [from] + Range(from + step, to, step)
  }

  lemma {:induction false} Scale(x: int, y: int, b: int)
    requires 0 < b && x <= y
    ensures x * b <= y * b
  {
  }

  lemma {:induction false} DivBounds(a: int, b: int)
    requires 0 < b
    ensures a / b * b <= a < a / b * b + b
  {
  }

  lemma {:induction false} DivUnique(a: int, b: int, c: int)
    requires 0 < b && c * b <= a < c * b + b
    ensures a / b == c
  {
    DivBounds(a, b);
    var d := a / b;
    if c < d { Scale(c + 1, d, b); }
    if d < c { Scale(d + 1, c, b); }
  }

  lemma {:induction false} CeilBounds(a: int, b: int)
    requires 0 < b
    ensures CeilDiv(a, b) * b - b < a <= CeilDiv(a, b) * b
  {
    DivBounds(-a, b);
    assert CeilDiv(a, b) * b == -(-a / b * b);
  }

  lemma {:induction false} CeilUnique(a: int, b: int, c: int)
    requires 0 < b && c * b - b < a <= c * b
    ensures CeilDiv(a, b) == c
  {
    hide CeilDiv;
    CeilBounds(a, b);
    var d := CeilDiv(a, b);
    if c < d { Scale(c + 1, d, b); }
    if d < c { Scale(d + 1, c, b); }
  }

  lemma {:induction false} CeilShift(a: int, b: int, k: int)
    requires 0 < b
    ensures CeilDiv(a - k * b, b) == CeilDiv(a, b) - k
  {
    hide CeilDiv;
    CeilBounds(a, b);
    assert (CeilDiv(a, b) - k) * b == CeilDiv(a, b) * b - k * b;
    CeilUnique(a - k * b, b, CeilDiv(a, b) - k);
  }

  lemma {:induction false} CeilSign(a: int, b: int)
    requires 0 < b
    ensures CeilDiv(a, b) <= 0 <==> a <= 0
  {
    hide CeilDiv;
    CeilBounds(a, b);
    var c := CeilDiv(a, b);
    if c <= 0 { Scale(c, 0, b); } else { Scale(1, c, b); }
  }

  lemma {:induction false} CeilMonotone(a: int, a': int, b: int)
    requires 0 < b && a <= a'
    ensures CeilDiv(a, b) <= CeilDiv(a', b)
  {
    hide CeilDiv;
    CeilBounds(a, b);
    CeilBounds(a', b);
    if CeilDiv(a', b) < CeilDiv(a, b) { Scale(CeilDiv(a', b) + 1, CeilDiv(a, b), b); }
  }

  // ---------- ranges ----------

  lemma {:induction false} RangeLength(from: int, to: int, step: int)
    requires 0 < step
    ensures |Range(from, to, step)| == Max(0, CeilDiv(to - from, step))
    decreases Max(0, to - from)
  {
    CeilSign(to - from, step);
    if from < to {
      RangeLength(from + step, to, step);
      CeilShift(to - from, step, 1);
    }
  }

  lemma {:induction false} RangeAt(from: int, to: int, step: int, i: nat)
    requires 0 < step && i < |Range(from, to, step)|
    ensures Range(from, to, step)[i] == from + i * step
    decreases Max(0, to - from)
  {
    if i > 0 { RangeAt(from + step, to, step, i - 1); }
  }

  /** A range holds the points of its grid between its bounds, and nothing else. */
  lemma {:induction false} RangeHolds(from: int, to: int, step: int, x: int)
    requires 0 < step
    ensures x in Range(from, to, step) <==> from <= x < to && (x - from) % step == 0
    decreases Max(0, to - from)
  {
    hide Range;
    RangeNext(from, to, step, x);
    if from < to {
      RangeHolds(from + step, to, step, x);
      GridNext(x - from, step);
    }
  }

  lemma {:induction false} RangeNext(from: int, to: int, step: int, x: int)
    requires 0 < step
    ensures x in Range(from, to, step) <==> from < to && (x == from || x in Range(from + step, to, step))
  {
  }

  /** On the grid: its origin, or from the next point on as seen from there. */
  lemma {:induction false} GridNext(x: int, step: int)
    requires 0 < step
    ensures 0 <= x && x % step == 0 <==> x == 0 || (step <= x && (x - step) % step == 0)
  {
    ModShift(x, step);
    if 0 <= x < step && x % step == 0 { ModSmall(x, step); }
  }

  lemma {:induction false} ModShift(a: int, b: int)
    requires 0 < b
    ensures (a - b) % b == a % b
  {
    DivBounds(a, b);
    DivUnique(a - b, b, a / b - 1);
  }

  lemma {:induction false} ModSmall(a: int, b: int)
    requires 0 < b && 0 <= a < b && a % b == 0
    ensures a == 0
  {
    DivUnique(a, b, 0);
  }

  predicate Increasing(s: seq<int>) {
    forall i, j | 0 <= i < j < |s| :: s[i] < s[j]
  }

  lemma {:induction false} RangeIncreasing(from: int, to: int, step: int)
    requires 0 < step
    ensures Increasing(Range(from, to, step))
    decreases Max(0, to - from)
  {
    if from < to { RangeIncreasing(from + step, to, step); }
  }

  // ---------- increasing lists ----------

  /** The elements in `[lo, hi)`, in order. */
  function Within(s: seq<int>, lo: int, hi: int): (r: seq<int>)
    ensures forall x :: x in r <==> x in s && lo <= x < hi
  {
    if s == [] then [] else (if lo <= s[0] < hi then [s[0]] else []) + Within(s[1..], lo, hi)
  }

  lemma {:induction false} WithinAppend(a: seq<int>, b: seq<int>, lo: int, hi: int)
    ensures Within(a + b, lo, hi) == Within(a, lo, hi) + Within(b, lo, hi)
  {
    if a == [] {
      assert a + b == b;
    } else {
      assert (a + b)[1..] == a[1..] + b;
      WithinAppend(a[1..], b, lo, hi);
    }
  }

  lemma {:induction false} IncreasingCons(x: int, s: seq<int>)
    requires Increasing(s) && forall y | y in s :: x < y
    ensures Increasing([x] + s)
  {
    forall i, j | 0 <= i < j < |[x] + s| ensures ([x] + s)[i] < ([x] + s)[j] {
      assert ([x] + s)[j] == s[j - 1] && s[j - 1] in s;
    }
  }

  lemma {:induction false} WithinIncreasing(s: seq<int>, lo: int, hi: int)
    requires Increasing(s)
    ensures Increasing(Within(s, lo, hi))
  {
    if s != [] {
      WithinIncreasing(s[1..], lo, hi);
      forall x | x in Within(s[1..], lo, hi) ensures s[0] < x {
        var i :| 0 <= i < |s[1..]| && s[1..][i] == x;
      }
      var rest := Within(s[1..], lo, hi);
      if lo <= s[0] < hi {
        IncreasingCons(s[0], rest);
      } else {
        assert Within(s, lo, hi) == rest;
      }
    }
  }

  lemma {:induction false} WithinNothing(s: seq<int>, lo: int, hi: int)
    requires forall i | 0 <= i < |s| :: s[i] < lo || hi <= s[i]
    ensures Within(s, lo, hi) == []
  {
    if s != [] { WithinNothing(s[1..], lo, hi); }
  }

  lemma {:induction false} WithinAll(s: seq<int>, lo: int, hi: int)
    requires forall i | 0 <= i < |s| :: lo <= s[i] < hi
    ensures Within(s, lo, hi) == s
  {
    if s != [] { WithinAll(s[1..], lo, hi); }
  }

  lemma {:induction false} WithinTwice(s: seq<int>, lo: int, hi: int, lower: int, higher: int)
    requires lower <= lo && hi <= higher
    ensures Within(Within(s, lower, higher), lo, hi) == Within(s, lo, hi)
  {
    if s != [] {
      WithinTwice(s[1..], lo, hi, lower, higher);
      var rest := Within(s[1..], lower, higher);
      if lower <= s[0] < higher {
        assert Within(s, lower, higher)[1..] == rest;
      } else {
        assert Within(s, lower, higher) == rest;
      }
    }
  }

  /** The number of points of a range in `[lo, hi)`, in closed form. */
  function PointsWithin(from: int, to: int, step: int, lo: int, hi: int): int
    requires 0 < step
  {
    Max(0, Min(CeilDiv(to - from, step), CeilDiv(hi - from, step)) - Max(0, CeilDiv(lo - from, step)))
  }

  lemma {:induction false} PointsShift(from: int, to: int, step: int, lo: int, hi: int)
    requires 0 < step
    ensures CeilDiv(to - (from + step), step) == CeilDiv(to - from, step) - 1
    ensures CeilDiv(lo - (from + step), step) == CeilDiv(lo - from, step) - 1
    ensures CeilDiv(hi - (from + step), step) == CeilDiv(hi - from, step) - 1
    ensures CeilDiv(to - from, step) <= 0 <==> to <= from
    ensures CeilDiv(lo - from, step) <= 0 <==> lo <= from
    ensures CeilDiv(hi - from, step) <= 0 <==> hi <= from
  {
    hide CeilDiv;
    CeilShift(to - from, step, 1);
    CeilShift(lo - from, step, 1);
    CeilShift(hi - from, step, 1);
    CeilSign(to - from, step);
    CeilSign(lo - from, step);
    CeilSign(hi - from, step);
  }

  lemma {:induction false} WithinRangeStep(from: int, to: int, step: int, lo: int, hi: int)
    requires 0 < step && from < to
    ensures Within(Range(from, to, step), lo, hi) ==
            (if lo <= from < hi then [from] else []) + Within(Range(from + step, to, step), lo, hi)
  {
    assert Range(from, to, step)[1..] == Range(from + step, to, step);
  }

  /** The part of a range in `[lo, hi)`: its points from the first in it on. */
  lemma {:induction false} WithinRange(from: int, to: int, step: int, lo: int, hi: int)
    requires 0 < step
    ensures |Within(Range(from, to, step), lo, hi)| == PointsWithin(from, to, step, lo, hi)
    decreases Max(0, to - from)
  {
    hide CeilDiv, Within, Range, PointsWithin;
    PointsStep(from, to, step, lo, hi);
    if from < to {
      WithinRangeStep(from, to, step, lo, hi);
      WithinRange(from + step, to, step, lo, hi);
    } else {
      EmptyRange(from, to, step, lo, hi);
    }
  }

  lemma {:induction false} EmptyRange(from: int, to: int, step: int, lo: int, hi: int)
    requires 0 < step && to <= from
    ensures Within(Range(from, to, step), lo, hi) == []
  {
  }

  lemma {:induction false} PointsStep(from: int, to: int, step: int, lo: int, hi: int)
    requires 0 < step
    ensures PointsWithin(from, to, step, lo, hi) ==
            if from < to then (if lo <= from < hi then 1 else 0) + PointsWithin(from + step, to, step, lo, hi) else 0
  {
    hide CeilDiv;
    PointsShift(from, to, step, lo, hi);
  }

  function Point(from: int, step: int, k: int): int {
    from + k * step
  }

  lemma {:induction false} PointNext(from: int, step: int, k: int)
    ensures Point(from, step, 0) == from
    ensures Point(from + step, step, k) == Point(from, step, k + 1)
  {
  }

  /** The place of the first point of a range from `lo` on. */
  function FirstPlace(from: int, step: int, lo: int): int
    requires 0 < step
  {
    Max(0, CeilDiv(lo - from, step))
  }

  lemma {:induction false} FirstPlaceNext(from: int, step: int, lo: int)
    requires 0 < step
    ensures lo <= from ==> FirstPlace(from, step, lo) == FirstPlace(from + step, step, lo) == 0
    ensures from < lo ==> FirstPlace(from, step, lo) == FirstPlace(from + step, step, lo) + 1
  {
    hide CeilDiv;
    CeilShift(lo - from, step, 1);
    CeilSign(lo - from, step);
  }

  lemma {:induction false} WithinRangeAt(from: int, to: int, step: int, lo: int, hi: int, j: nat)
    requires 0 < step && j < |Within(Range(from, to, step), lo, hi)|
    ensures Within(Range(from, to, step), lo, hi)[j] == Point(from, step, FirstPlace(from, step, lo) + j)
    decreases Max(0, to - from)
  {
    hide CeilDiv, Within, Range, Point, FirstPlace;
    if to <= from {
      EmptyRange(from, to, step, lo, hi);
    } else {
      WithinRangeStep(from, to, step, lo, hi);
      FirstPlaceNext(from, step, lo);
      PointNext(from, step, FirstPlace(from + step, step, lo) + j);
      PointNext(from, step, j - 1);
      if hi <= from {
        NothingBelow(from, to, step, lo, hi);
      } else if lo <= from {
        if j > 0 { WithinRangeAt(from + step, to, step, lo, hi, j - 1); }
      } else {
        WithinRangeAt(from + step, to, step, lo, hi, j);
      }
    }
  }

  lemma {:induction false} NothingBelow(from: int, to: int, step: int, lo: int, hi: int)
    requires 0 < step && hi <= from
    ensures Within(Range(from, to, step), lo, hi) == []
  {
    WithinNothing(Range(from, to, step), lo, hi);
  }

  /** How many elements are below `hi` says which elements are. */
  lemma {:induction false} CountBelow(s: seq<int>, lo: int, hi: int, n: nat)
    requires Increasing(s) && n < |s| && forall i | 0 <= i < |s| :: lo <= s[i]
    ensures |Within(s, lo, hi)| <= n <==> hi <= s[n]
    ensures hi == s[n] + 1 ==> |Within(s, lo, hi)| == n + 1
  {
    if s[0] >= hi {
      WithinNothing(s, lo, hi);
    } else if n > 0 {
      assert forall i | 0 <= i < |s[1..]| :: s[1..][i] == s[i + 1];
      CountBelow(s[1..], lo, hi, n - 1);
    } else if hi == s[0] + 1 {
      WithinNothing(s[1..], lo, hi);
    }
  }

  /** A list in order has no more elements than one that holds them all. */
  lemma {:induction false} SublistIsShorter(a: seq<int>, b: seq<int>)
    requires Increasing(a) && (forall x | x in a :: x in b)
    ensures |a| <= |b|
  {
    var sa, sb := set x | x in a, set x | x in b;
    Distinct(a);
    AtMost(b);
    assert sa <= sb;
    SubsetSize(sa, sb);
  }

  lemma {:induction false} Distinct(s: seq<int>)
    requires Increasing(s)
    ensures |set x | x in s| == |s|
  {
    if s != [] {
      var t := s[..|s| - 1];
      Distinct(t);
      assert (set x | x in s) == (set x | x in t) + {s[|s| - 1]};
    }
  }

  lemma {:induction false} AtMost(s: seq<int>)
    ensures |set x | x in s| <= |s|
  {
    if s != [] {
      var t := s[..|s| - 1];
      AtMost(t);
      assert (set x | x in s) == (set x | x in t) + {s[|s| - 1]};
    }
  }

  lemma {:induction false} SubsetSize<T>(a: set<T>, b: set<T>)
    requires a <= b
    ensures |a| <= |b|
  {
    assert b == a + (b - a);
  }
}
