/** The damage region between two frames, from subsampled luminance. */
module VisualDiff {
  import opened Domain

  type Byte = b: int | 0 <= b < 256

  datatype Pixel = Colour(b: Byte, g: Byte, r: Byte) | Grey(l: Byte)

  /** A frame of h rows and w columns; `at` gives the pixel in a row and a column. */
  datatype Frame = Frame(h: nat, w: nat, colour: bool, at: (nat, nat) -> Pixel)

  /** The width the luminance is computed in; it is never exceeded. */
  type Int16 = i: int | -32768 <= i < 32768

  /** The weighted sum before the shift. */
  function Weighted(p: Pixel): Int16 {
    match p
    case Colour(b, g, r) => b + 2 * g + r
    case Grey(l) => l
  }

  function Luminance(p: Pixel): Int16 { if p.Colour? then Weighted(p) / 4 else Weighted(p) }

  function Abs(i: int): nat { if i < 0 then -i else i }

  /** How many samples a stride takes along one side. */
  function Samples(n: nat, ds: nat): nat
    requires ds > 0
  {
    (n + ds - 1) / ds
  }

  lemma SampleInside(i: nat, n: nat, ds: nat)
    requires ds > 0 && i < Samples(n, ds)
    ensures i * ds < n
    ensures i + 1 == Samples(n, ds) ==> n <= (i + 1) * ds
  {
    var k := Samples(n, ds);
    assert ds * k <= n + ds - 1 < ds * k + ds;
    MulLe(i + 1, k, ds);
  }

  lemma MulLe(a: nat, b: nat, c: nat)
    requires a <= b
    ensures a * c <= b * c && (a + 1) * c == a * c + c
  {}

  /** The two frames compared, with the stride and the noise tolerance. */
  datatype Pair = Pair(current: Frame, previous: Frame, ds: nat, noise: int)

  predicate Comparable(p: Pair) {
    p.ds > 0 && p.current.h == p.previous.h && p.current.w == p.previous.w && p.current.colour == p.previous.colour
  }

  function Delta(p: Pair, i: nat, j: nat): Int16 {
    Luminance(p.current.at(i * p.ds, j * p.ds)) - Luminance(p.previous.at(i * p.ds, j * p.ds))
  }

  predicate Changed(p: Pair, i: nat, j: nat) { Abs(Delta(p, i, j)) > p.noise }

  function Rows(p: Pair): nat requires Comparable(p) { Samples(p.current.h, p.ds) }
  function Cols(p: Pair): nat requires Comparable(p) { Samples(p.current.w, p.ds) }

  function CountInRow(p: Pair, i: nat, j: nat): nat {
    if j == 0 then 0 else CountInRow(p, i, j - 1) + (if Changed(p, i, j - 1) then 1 else 0)
  }

  function Count(p: Pair, i: nat): nat
    requires Comparable(p)
  {
    if i == 0 then 0 else Count(p, i - 1) + CountInRow(p, i - 1, Cols(p))
  }

  predicate RowHit(p: Pair, i: nat) requires Comparable(p) { exists j :: 0 <= j < Cols(p) && Changed(p, i, j) }
  predicate ColHit(p: Pair, j: nat) requires Comparable(p) { exists i :: 0 <= i < Rows(p) && Changed(p, i, j) }

  /** The first and the last index below n with the property, n when there is none. */
  function First(hit: nat -> bool, i: nat, n: nat): (r: nat)
    requires i <= n
    ensures i <= r <= n
    ensures r < n ==> hit(r)
    ensures forall k: nat :: i <= k < r ==> !hit(k)
    decreases n - i
  {
    if i == n then n else if hit(i) then i else First(hit, i + 1, n)
  }

  function Last(hit: nat -> bool, n: nat): (r: int)
    ensures -1 <= r < n
    ensures r >= 0 ==> hit(r)
    ensures forall k: nat :: r < k < n ==> !hit(k)
  {
    if n == 0 then -1 else if hit(n - 1) then n - 1 else Last(hit, n - 1)
  }

  function RowMask(p: Pair): nat -> bool { (i: nat) => Comparable(p) && RowHit(p, i) }
  function ColMask(p: Pair): nat -> bool { (j: nat) => Comparable(p) && ColHit(p, j) }

  datatype Region = Region(x: int, y: int, w: int, h: int)

  function Whole(f: Frame): Region { Region(0, 0, f.w, f.h) }

  function MinInt(a: int, b: int): int { if a < b then a else b }

  /** From the first to the last hit sample of a side of the given size, clipped to it. */
  function Axis(hit: nat -> bool, size: nat, ds: nat): (int, int)
    requires ds > 0
  {
    var first, last := First(hit, 0, Samples(size, ds)), Last(hit, Samples(size, ds));
    (first * ds, MinInt(size - first * ds, (last - first + 1) * ds))
  }

  /** The bounding box of the changed samples' blocks, clipped to the frame. */
  function Damage(p: Pair): Region
    requires Comparable(p)
  {
    var (x, w) := Axis(ColMask(p), p.current.w, p.ds);
    var (y, h) := Axis(RowMask(p), p.current.h, p.ds);
    Region(x, y, w, h)
  }

  datatype Diff = Diff(hasChanged: bool, ratio: real, damage: Option<Region>, suppressed: bool)

  function Share(count: nat, total: nat): real { if total > 0 then count as real / total as real else 0.0 }

  /** Compares a frame with the one before it, if there is one of the same shape. */
  function ComputeDiff(current: Frame, previous: Option<Frame>, threshold: real, ds: nat, noise: int,
                       forced: bool): Diff
    requires ds > 0
  {
    if previous.None? || !Comparable(Pair(current, previous.value, ds, noise)) then
      Diff(true, 1.0, Some(Whole(current)), false)
    else
      var p := Pair(current, previous.value, ds, noise);
      var count, total := Count(p, Rows(p)), Rows(p) * Cols(p);
      var ratio := Share(count, total);
      var hasChanged := ratio >= threshold || forced;
      Diff(hasChanged, ratio,
           if hasChanged && count > 0 then Some(Damage(p)) else if forced then Some(Whole(current)) else None,
           !hasChanged && !forced)
  }

  // ---- properties

  lemma {:induction false} CountInRowMeaning(p: Pair, i: nat, j: nat)
    ensures CountInRow(p, i, j) > 0 <==> exists k :: 0 <= k < j && Changed(p, i, k)
  {
    if j > 0 {
      CountInRowMeaning(p, i, j - 1);
    }
  }

  lemma {:induction false} CountMeaning(p: Pair, i: nat)
    requires Comparable(p)
    ensures Count(p, i) > 0 <==> exists k :: 0 <= k < i && RowHit(p, k)
  {
    if i > 0 {
      CountMeaning(p, i - 1);
      CountInRowMeaning(p, i - 1, Cols(p));
      assert CountInRow(p, i - 1, Cols(p)) > 0 <==> RowHit(p, i - 1);
    }
  }

  /** The block of sample k of a side, clipped to its size, lies in [start, start + extent). */
  predicate Within(k: nat, size: nat, ds: nat, start: int, extent: int) {
    start <= k * ds && MinInt(size, (k + 1) * ds) <= start + extent
  }

  lemma SpanLength(first: nat, last: nat, ds: nat)
    requires first <= last
    ensures (last - first + 1) * ds == (last + 1) * ds - first * ds >= ds
  {
    assert (last - first + 1) * ds == (last + 1) * ds - first * ds;
    MulLe(1, last - first + 1, ds);
  }

  lemma BlockWithin(k: nat, first: nat, last: nat, size: nat, ds: nat)
    requires first <= k <= last
    ensures Within(k, size, ds, first * ds, MinInt(size - first * ds, (last - first + 1) * ds))
  {
    SpanLength(first, last, ds);
    MulLe(first, k, ds);
    MulLe(k + 1, last + 1, ds);
  }

  /** One side: the extent is positive, inside the frame, covers every hit sample's block, and
      begins and ends with the block of a hit sample. */
  lemma AxisIsExact(hit: nat -> bool, size: nat, ds: nat, some: nat) returns (first: nat, last: nat)
    requires ds > 0 && some < Samples(size, ds) && hit(some)
    ensures var (start, extent) := Axis(hit, size, ds);
            && 0 <= start && 0 < extent && start + extent <= size
            && (forall k: nat :: k < Samples(size, ds) && hit(k) ==> Within(k, size, ds, start, extent))
            && first < Samples(size, ds) && hit(first) && start == first * ds
            && last < Samples(size, ds) && hit(last) && start + extent == MinInt(size, (last + 1) * ds)
  {
    first, last := First(hit, 0, Samples(size, ds)), Last(hit, Samples(size, ds));
    assert first <= some <= last;
    SampleInside(first, size, ds);
    SpanLength(first, last, ds);
    var (start, extent) := Axis(hit, size, ds);
    forall k: nat | k < Samples(size, ds) && hit(k) ensures Within(k, size, ds, start, extent) {
      assert first <= k <= last;
      BlockWithin(k, first, last, size, ds);
    }
  }

  predicate InFrame(r: Region, f: Frame) {
    0 <= r.x && 0 <= r.y && 0 < r.w && 0 < r.h && r.x + r.w <= f.w && r.y + r.h <= f.h
  }

  predicate Covers(r: Region, p: Pair, i: nat, j: nat) {
    Within(j, p.current.w, p.ds, r.x, r.w) && Within(i, p.current.h, p.ds, r.y, r.h)
  }

  /** Each side of the region is the side of some changed block. */
  ghost predicate Tight(r: Region, p: Pair)
    requires Comparable(p)
  {
    && (exists j: nat :: j < Cols(p) && ColHit(p, j) && r.x == j * p.ds)
    && (exists i: nat :: i < Rows(p) && RowHit(p, i) && r.y == i * p.ds)
    && (exists j: nat :: j < Cols(p) && ColHit(p, j) && r.x + r.w == MinInt(p.current.w, (j + 1) * p.ds))
    && (exists i: nat :: i < Rows(p) && RowHit(p, i) && r.y + r.h == MinInt(p.current.h, (i + 1) * p.ds))
  }

  lemma ChangedHits(p: Pair, i: nat, j: nat)
    requires Comparable(p) && i < Rows(p) && j < Cols(p) && Changed(p, i, j)
    ensures RowMask(p)(i) && ColMask(p)(j)
  {
    assert RowHit(p, i) && ColHit(p, j);
  }

  lemma SomeHit(p: Pair) returns (row: nat, col: nat)
    requires Comparable(p) && Count(p, Rows(p)) > 0
    ensures row < Rows(p) && col < Cols(p) && RowMask(p)(row) && ColMask(p)(col)
  {
    CountMeaning(p, Rows(p));
    row :| 0 <= row < Rows(p) && RowHit(p, row);
    col :| 0 <= col < Cols(p) && Changed(p, row, col);
    ChangedHits(p, row, col);
  }

  /** The region's extent along one side, with the first and last hit sample it comes from. */
  predicate Spans(hit: nat -> bool, size: nat, ds: nat, start: int, extent: int, first: nat, last: nat)
    requires ds > 0
  {
    && first < Samples(size, ds) && hit(first) && start == first * ds
    && last < Samples(size, ds) && hit(last) && start + extent == MinInt(size, (last + 1) * ds)
  }

  lemma AcrossIsExact(p: Pair, col: nat) returns (left: nat, right: nat)
    requires Comparable(p) && col < Cols(p) && ColMask(p)(col)
    ensures var r := Damage(p);
            && 0 <= r.x && 0 < r.w && r.x + r.w <= p.current.w
            && (forall j: nat :: j < Cols(p) && ColMask(p)(j) ==> Within(j, p.current.w, p.ds, r.x, r.w))
            && Spans(ColMask(p), p.current.w, p.ds, r.x, r.w, left, right)
  {
    left, right := AxisIsExact(ColMask(p), p.current.w, p.ds, col);
  }

  lemma DownIsExact(p: Pair, row: nat) returns (top: nat, bottom: nat)
    requires Comparable(p) && row < Rows(p) && RowMask(p)(row)
    ensures var r := Damage(p);
            && 0 <= r.y && 0 < r.h && r.y + r.h <= p.current.h
            && (forall i: nat :: i < Rows(p) && RowMask(p)(i) ==> Within(i, p.current.h, p.ds, r.y, r.h))
            && Spans(RowMask(p), p.current.h, p.ds, r.y, r.h, top, bottom)
  {
    top, bottom := AxisIsExact(RowMask(p), p.current.h, p.ds, row);
  }

  /** Some sample changed: the damage region lies in the frame with positive extents, covers the
      block of every changed sample, and is tight on all four sides. */
  lemma DamageIsExact(p: Pair)
    requires Comparable(p) && Count(p, Rows(p)) > 0
    ensures InFrame(Damage(p), p.current)
    ensures forall i: nat, j: nat :: i < Rows(p) && j < Cols(p) && Changed(p, i, j) ==> Covers(Damage(p), p, i, j)
    ensures Tight(Damage(p), p)
  {
    var row, col := SomeHit(p);
    var top, bottom := DownIsExact(p, row);
    var left, right := AcrossIsExact(p, col);
    assert RowHit(p, top) && RowHit(p, bottom) && ColHit(p, left) && ColHit(p, right);
    forall i: nat, j: nat | i < Rows(p) && j < Cols(p) && Changed(p, i, j) ensures Covers(Damage(p), p, i, j) {
      ChangedHits(p, i, j);
    }
  }

  function Swap(p: Pair): Pair { Pair(p.previous, p.current, p.ds, p.noise) }

  lemma SwapChanged(p: Pair, i: nat, j: nat)
    ensures Changed(Swap(p), i, j) == Changed(p, i, j)
  {
    assert Delta(Swap(p), i, j) == -Delta(p, i, j);
  }

  lemma {:induction false} SwapCountInRow(p: Pair, i: nat, j: nat)
    ensures CountInRow(Swap(p), i, j) == CountInRow(p, i, j)
  {
    if j > 0 {
      SwapCountInRow(p, i, j - 1);
      SwapChanged(p, i, j - 1);
    }
  }

  lemma {:induction false} SwapCount(p: Pair, i: nat)
    requires Comparable(p)
    ensures Count(Swap(p), i) == Count(p, i)
  {
    if i > 0 {
      SwapCount(p, i - 1);
      SwapCountInRow(p, i - 1, Cols(p));
    }
  }

  lemma SwapDamage(p: Pair)
    requires Comparable(p)
    ensures Damage(Swap(p)) == Damage(p)
  {
    forall i: nat, j: nat ensures Changed(Swap(p), i, j) == Changed(p, i, j) {
      SwapChanged(p, i, j);
    }
    forall i: nat ensures RowHit(Swap(p), i) == RowHit(p, i) && ColHit(Swap(p), i) == ColHit(p, i) {
      assert forall j: nat :: Changed(Swap(p), i, j) == Changed(p, i, j) && Changed(Swap(p), j, i) == Changed(p, j, i);
    }
    SameEnds(RowMask(p), RowMask(Swap(p)), Rows(p));
    SameEnds(ColMask(p), ColMask(Swap(p)), Cols(p));
  }

  lemma SameEnds(f: nat -> bool, g: nat -> bool, n: nat)
    requires forall k: nat :: k < n ==> f(k) == g(k)
    ensures First(f, 0, n) == First(g, 0, n) && Last(f, n) == Last(g, n)
  {
    var a, b := First(f, 0, n), First(g, 0, n);
    var c, d := Last(f, n), Last(g, n);
    assert a < n ==> g(a);
    assert b < n ==> f(b);
    assert c >= 0 ==> g(c);
    assert d >= 0 ==> f(d);
  }

  /** Swapping two frames of the same shape changes nothing in the result, and a region is
      reported without a forced refresh exactly when enough samples changed and some did. */
  lemma DiffIsSymmetric(a: Frame, b: Frame, threshold: real, ds: nat, noise: int, forced: bool)
    requires ds > 0 && Comparable(Pair(a, b, ds, noise))
    ensures ComputeDiff(a, Some(b), threshold, ds, noise, forced)
            == ComputeDiff(b, Some(a), threshold, ds, noise, forced)
    ensures var d := ComputeDiff(a, Some(b), threshold, ds, noise, false);
            d.damage.Some? <==> d.hasChanged && Count(Pair(a, b, ds, noise), Samples(a.h, ds)) > 0
  {
    var p := Pair(a, b, ds, noise);
    SwapCount(p, Rows(p));
    SwapDamage(p);
  }

  // ---- what is reported, exactly

  /** Every stride-th row or column is sampled, and no other. */
  lemma SamplesExactly(n: nat, ds: nat, k: nat)
    requires ds > 0
    ensures k < Samples(n, ds) <==> k * ds < n
  {
    var m := Samples(n, ds);
    assert ds * m <= n + ds - 1 < ds * m + ds;
    if k < m {
      MulLe(k + 1, m, ds);
    } else {
      MulLe(m, k, ds);
    }
  }

  /** A colour weighs blue, green and red one, two and one quarters, rounded down. */
  function Brightness(p: Pixel): int {
    match p
    case Colour(b, g, r) => (b + g + g + r) / 4
    case Grey(l) => l
  }

  /** The brightness of the sample differs by more than the noise. */
  predicate Alters(p: Pair, i: nat, j: nat) {
    var now, was := Brightness(p.current.at(i * p.ds, j * p.ds)), Brightness(p.previous.at(i * p.ds, j * p.ds));
    now - was > p.noise || was - now > p.noise
  }

  lemma AltersExactly(p: Pair, i: nat, j: nat)
    ensures Alters(p, i, j) <==> Changed(p, i, j)
  {}

  /** A sample's row and column. */
  datatype Place = Place(row: nat, col: nat)

  /** The samples of row `i`, before column `j`, that differ, in order. */
  function AlteredInRow(p: Pair, i: nat, j: nat): seq<Place> {
    if j == 0 then [] else AlteredInRow(p, i, j - 1) + if Alters(p, i, j - 1) then [Place(i, j - 1)] else []
  }

  /** Those of the rows before `i`. */
  function AlteredRows(p: Pair, i: nat): seq<Place>
    requires Comparable(p)
  {
    if i == 0 then [] else AlteredRows(p, i - 1) + AlteredInRow(p, i - 1, Cols(p))
  }

  /** The samples that differ, row by row. */
  function Altered(p: Pair): seq<Place>
    requires Comparable(p)
  {
    AlteredRows(p, Rows(p))
  }

  lemma {:induction false} InRowCount(p: Pair, i: nat, j: nat)
    ensures |AlteredInRow(p, i, j)| == CountInRow(p, i, j)
  {
    if j > 0 {
      InRowCount(p, i, j - 1);
      AltersExactly(p, i, j - 1);
    }
  }

  lemma {:induction false} RowsCount(p: Pair, i: nat)
    requires Comparable(p)
    ensures |AlteredRows(p, i)| == Count(p, i)
  {
    if i > 0 {
      RowsCount(p, i - 1);
      InRowCount(p, i - 1, Cols(p));
    }
  }

  predicate Precedes(s: Place, t: Place) { s.row < t.row || (s.row == t.row && s.col < t.col) }

  /** Each place once, in order. */
  predicate InOrder(places: seq<Place>) { forall a, b :: 0 <= a < b < |places| ==> Precedes(places[a], places[b]) }

  lemma OrderJoins(s: seq<Place>, t: seq<Place>)
    requires InOrder(s) && InOrder(t)
    requires forall a, b :: 0 <= a < |s| && 0 <= b < |t| ==> Precedes(s[a], t[b])
    ensures InOrder(s + t)
  {}

  lemma {:induction false} InRowMeaning(p: Pair, i: nat, j: nat, s: Place)
    ensures s in AlteredInRow(p, i, j) <==> s.row == i && s.col < j && Alters(p, s.row, s.col)
    ensures InOrder(AlteredInRow(p, i, j))
    ensures forall a :: 0 <= a < |AlteredInRow(p, i, j)| ==>
              AlteredInRow(p, i, j)[a].row == i && AlteredInRow(p, i, j)[a].col < j
  {
    if j > 0 {
      InRowMeaning(p, i, j - 1, s);
      OrderJoins(AlteredInRow(p, i, j - 1), if Alters(p, i, j - 1) then [Place(i, j - 1)] else []);
    }
  }

  lemma {:induction false} RowsMeaning(p: Pair, i: nat, s: Place)
    requires Comparable(p)
    ensures s in AlteredRows(p, i) <==> s.row < i && s.col < Cols(p) && Alters(p, s.row, s.col)
    ensures InOrder(AlteredRows(p, i))
    ensures forall a :: 0 <= a < |AlteredRows(p, i)| ==> AlteredRows(p, i)[a].row < i
  {
    if i > 0 {
      RowsMeaning(p, i - 1, s);
      InRowMeaning(p, i - 1, Cols(p), s);
      OrderJoins(AlteredRows(p, i - 1), AlteredInRow(p, i - 1, Cols(p)));
    }
  }

  /** Each sample that differs is listed once. */
  lemma AlteredMeaning(p: Pair, s: Place)
    requires Comparable(p)
    ensures s in Altered(p) <==> s.row < Rows(p) && s.col < Cols(p) && Alters(p, s.row, s.col)
    ensures InOrder(Altered(p))
  {
    RowsMeaning(p, Rows(p), s);
  }

  lemma ShareExactly(count: nat, total: nat)
    ensures total > 0 ==> Share(count, total) * total as real == count as real
    ensures total == 0 ==> Share(count, total) == 0.0
  {}

  /** The report on two frames of the same shape of which `altered` samples differ. */
  predicate Compared(d: Diff, p: Pair, altered: nat, threshold: real, forced: bool)
    requires Comparable(p)
  {
    var total := Rows(p) * Cols(p);
    && d.ratio == Share(altered, total)
    && (d.hasChanged <==> d.ratio >= threshold || forced) && (d.suppressed <==> !d.hasChanged)
    && d.damage == (if d.hasChanged && altered > 0 then Some(Damage(p))
                    else if forced then Some(Region(0, 0, p.current.w, p.current.h)) else None)
  }

  lemma ComparedExactly(p: Pair, threshold: real, forced: bool)
    requires Comparable(p)
    ensures Compared(ComputeDiff(p.current, Some(p.previous), threshold, p.ds, p.noise, forced), p,
                     Count(p, Rows(p)), threshold, forced)
  {}

  /** What is reported of two frames: everything has changed without a frame of the same shape to
      compare with; else the share of samples whose brightness differs by more than the noise, a change
      exactly if that share reaches the threshold or a refresh is forced, the damage region of the samples
      that differ if there are any, and the whole frame where a forced refresh finds none. */
  lemma DiffExactly(current: Frame, previous: Option<Frame>, threshold: real, ds: nat, noise: int, forced: bool)
    requires ds > 0
    ensures var d := ComputeDiff(current, previous, threshold, ds, noise, forced);
            if previous.None? || previous.value.h != current.h || previous.value.w != current.w
               || previous.value.colour != current.colour
            then d == Diff(true, 1.0, Some(Region(0, 0, current.w, current.h)), false)
            else
              var p := Pair(current, previous.value, ds, noise);
              Compared(d, p, |Altered(p)|, threshold, forced)
  {
    if previous.Some? && Comparable(Pair(current, previous.value, ds, noise)) {
      RowsCount(Pair(current, previous.value, ds, noise), Rows(Pair(current, previous.value, ds, noise)));
      ComparedExactly(Pair(current, previous.value, ds, noise), threshold, forced);
    }
  }
}
