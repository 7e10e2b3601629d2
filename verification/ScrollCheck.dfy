/** Verification of a scroll: greedy spatial matching of the labels seen before and after. */
module ScrollCheck {
  import opened Domain

  datatype Box = Box(x: real, y: real, w: real, h: real)

  datatype Detection = Detection(text: string, box: Box)

  datatype Shift = Shift(dx: real, dy: real)

  function Abs(r: real): real { if r < 0.0 then -r else r }
  function Min(a: real, b: real): real { if a < b then a else b }
  function Max(a: real, b: real): real { if a > b then a else b }

  /** The normal form of a label, and what lies inside the target bounds with some slack. */
  datatype Lens = Lens(normalize: string -> string, bounds: Option<Box>)

  predicate Inside(b: Box, bounds: Option<Box>) {
    bounds.Some? ==>
      var t := bounds.value;
      t.x - 15.0 <= b.x <= t.x + t.w + 15.0 && t.y - 15.0 <= b.y <= t.y + t.h + 15.0
  }

  /** The labelled items a verification compares. */
  function Extract(detections: seq<Detection>, lens: Lens): seq<Detection> {
    if detections == [] then []
    else
      var d := detections[|detections| - 1];
      Extract(detections[..|detections| - 1], lens)
      + (if lens.normalize(d.text) != "" && Inside(d.box, lens.bounds) then [Detection(lens.normalize(d.text), d.box)]
        else [])
  }

  // ---- matching

  function ShiftOf(from: Box, to: Box): Shift { Shift(to.x - from.x, to.y - from.y) }

  /** A match may not jump diagonally. */
  predicate Plausible(s: Shift) { !(Abs(s.dx) > 80.0 && Abs(s.dy) > 80.0) }

  function Score(s: Shift): real { Min(Abs(s.dx), Abs(s.dy)) * 4.0 + Max(Abs(s.dx), Abs(s.dy)) }

  /** The candidate the scan from `i` on settles for, `best` being the one so far. */
  function Best(candidates: seq<Box>, to: Box, i: nat, best: Option<nat>): (r: Option<nat>)
    requires i <= |candidates| && (best.Some? ==> best.value < |candidates|)
    ensures r.Some? ==> r.value < |candidates|
    decreases |candidates| - i
  {
    if i == |candidates| then best
    else
      var s := ShiftOf(candidates[i], to);
      if !Plausible(s) then Best(candidates, to, i + 1, best)
      else if best.None? || Score(s) < Score(ShiftOf(candidates[best.value], to))
           then Best(candidates, to, i + 1, Some(i))
      else Best(candidates, to, i + 1, best)
  }

  type Pool = map<string, seq<Box>>

  function Group(items: seq<Detection>): Pool {
    if items == [] then map[]
    else
      var m := Group(items[..|items| - 1]);
      var d := items[|items| - 1];
      m[d.text := (if d.text in m then m[d.text] else []) + [d.box]]
  }

  function Drop<T>(s: seq<T>, i: nat): seq<T>
    requires i < |s|
  {
    s[..i] + s[i + 1..]
  }

  /** The shifts of the items from the `k`-th on, each matched to a candidate of its label that
      no earlier item used; a match that crosses columns is used up but not counted. */
  function Match(items: seq<Detection>, k: nat, pool: Pool): seq<Shift>
    requires k <= |items|
    decreases |items| - k
  {
    if k == |items| then []
    else
      var d := items[k];
      if d.text !in pool then Match(items, k + 1, pool)
      else
        var found := Best(pool[d.text], d.box, 0, None);
        if found.None? then Match(items, k + 1, pool)
        else
          var s := ShiftOf(pool[d.text][found.value], d.box);
          var rest := Match(items, k + 1, pool[d.text := Drop(pool[d.text], found.value)]);
          if Abs(s.dx) < 150.0 then [s] + rest else rest
  }

  /** Stable, longest label first. */
  function Insert(d: Detection, sorted: seq<Detection>): seq<Detection> {
    if sorted == [] || |d.text| > |sorted[0].text| then [d] + sorted
    else [sorted[0]] + Insert(d, sorted[1..])
  }

  function SortByLength(items: seq<Detection>): seq<Detection> {
    if items == [] then [] else Insert(items[|items| - 1], SortByLength(items[..|items| - 1]))
  }

  predicate Moved(s: Shift, least: real) { Abs(s.dy) >= least || Abs(s.dx) >= least }

  function Labels(items: seq<Detection>): set<string> { set d | d in items :: d.text }

  /** The verdict on the extracted items. */
  function Judge(before: seq<Detection>, after: seq<Detection>, least: real): Verdict {
    if before == [] || after == [] then Verdict(UNKNOWN, Some(UnknownFailure))
    else
      var shifts := Match(SortByLength(after), 0, Group(before));
      if exists s :: s in shifts && Moved(s, least) then Verdict(TRUE, None)
      else if Labels(before) != Labels(after) && |before| >= 3 && |after| >= 3 then Verdict(TRUE, None)
      else if |shifts| >= 3 then Verdict(FALSE, Some(ClickNoEffect))
      else Verdict(UNKNOWN, Some(UnknownFailure))
  }

  /** Capture times of the two observations, where there are any. */
  function VerifyScroll(before: seq<Detection>, after: seq<Detection>, lens: Lens, least: real,
                        beforeAt: Option<int>, afterAt: Option<int>): Verdict
  {
    if afterAt.None? then Verdict(UNKNOWN, Some(UnknownFailure))
    else if beforeAt.Some? && afterAt.value <= beforeAt.value then Verdict(UNKNOWN, Some(StaleTarget))
    else Judge(Extract(before, lens), Extract(after, lens), least)
  }

  method FindBest(candidates: seq<Box>, to: Box) returns (best: Option<nat>)
    ensures best == Best(candidates, to, 0, None)
  {
    best := None;
    for i := 0 to |candidates|
      invariant best.Some? ==> best.value < |candidates|
      invariant Best(candidates, to, i, best) == Best(candidates, to, 0, None)
    {
      var s := ShiftOf(candidates[i], to);
      if Plausible(s) && (best.None? || Score(s) < Score(ShiftOf(candidates[best.value], to))) {
        best := Some(i);
      }
    }
  }

  method MatchItems(items: seq<Detection>, start: Pool) returns (shifts: seq<Shift>)
    ensures shifts == Match(items, 0, start)
  {
    shifts := [];
    var pool := start;
    for k := 0 to |items|
      invariant shifts + Match(items, k, pool) == Match(items, 0, start)
    {
      var d := items[k];
      if d.text in pool {
        var best := FindBest(pool[d.text], d.box);
        if best.Some? {
          var s := ShiftOf(pool[d.text][best.value], d.box);
          pool := pool[d.text := Drop(pool[d.text], best.value)];
          if Abs(s.dx) < 150.0 {
            shifts := shifts + [s];
          }
        }
      }
    }
  }

  method GroupItems(items: seq<Detection>) returns (pool: Pool)
    ensures pool == Group(items)
  {
    pool := map[];
    for k := 0 to |items|
      invariant pool == Group(items[..k])
    {
      assert items[..k + 1][..k] == items[..k];
      var d := items[k];
      if d.text !in pool {
        pool := pool[d.text := []];
      }
      pool := pool[d.text := pool[d.text] + [d.box]];
    }
    assert items[..|items|] == items;
  }

  method CheckScroll(before: seq<Detection>, after: seq<Detection>, lens: Lens, least: real,
                     beforeAt: Option<int>, afterAt: Option<int>) returns (verdict: Verdict)
    ensures verdict == VerifyScroll(before, after, lens, least, beforeAt, afterAt)
  {
    if afterAt.None? {
      return Verdict(UNKNOWN, Some(UnknownFailure));
    }
    if beforeAt.Some? && afterAt.value <= beforeAt.value {
      return Verdict(UNKNOWN, Some(StaleTarget));
    }
    var itemsBefore, itemsAfter := Extract(before, lens), Extract(after, lens);
    if itemsBefore != [] && itemsAfter != [] {
      var pool := GroupItems(itemsBefore);
      var shifts := MatchItems(SortByLength(itemsAfter), pool);
      if exists s :: s in shifts && Moved(s, least) {
        return Verdict(TRUE, None);
      }
      if Labels(itemsBefore) != Labels(itemsAfter) && |itemsBefore| >= 3 && |itemsAfter| >= 3 {
        return Verdict(TRUE, None);
      }
      if |shifts| >= 3 {
        return Verdict(FALSE, Some(ClickNoEffect));
      }
    }
    return Verdict(UNKNOWN, Some(UnknownFailure));
  }
}
