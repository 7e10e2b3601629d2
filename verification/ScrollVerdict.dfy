/** The verdict on a scroll, exactly: which label seen before each label seen after is matched to, and
    what follows from the matches. */
module ScrollVerdict {
  import opened Domain
  import opened ScrollCheck

  function Size(r: real): real { if r < 0.0 then -r else r }

  // ---- the candidate that is chosen

  /** Not a jump by more than 80 in both directions. */
  predicate MayMatch(from: Box, to: Box) { Size(to.x - from.x) <= 80.0 || Size(to.y - from.y) <= 80.0 }

  /** The larger displacement, and four times the smaller one. */
  function Cost(from: Box, to: Box): real {
    var dx, dy := Size(to.x - from.x), Size(to.y - from.y);
    if dx < dy then 4.0 * dx + dy else 4.0 * dy + dx
  }

  lemma CostIsScore(from: Box, to: Box)
    ensures MayMatch(from, to) <==> Plausible(ShiftOf(from, to))
    ensures Cost(from, to) == Score(ShiftOf(from, to))
  {}

  /** Among the first `n` candidates `best` is the first of least cost. */
  ghost predicate FirstLeast(candidates: seq<Box>, to: Box, n: nat, best: Option<nat>)
    requires n <= |candidates|
  {
    match best
    case None => forall j :: 0 <= j < n ==> !MayMatch(candidates[j], to)
    case Some(i) =>
      && i < n && MayMatch(candidates[i], to)
      && forall j :: 0 <= j < n && MayMatch(candidates[j], to) ==>
           && Cost(candidates[i], to) <= Cost(candidates[j], to)
           && (j < i ==> Cost(candidates[i], to) < Cost(candidates[j], to))
  }

  lemma OneMoreCandidate(candidates: seq<Box>, to: Box, n: nat, best: Option<nat>)
    requires n < |candidates| && FirstLeast(candidates, to, n, best)
    ensures var s := ShiftOf(candidates[n], to);
            FirstLeast(candidates, to, n + 1,
                       if Plausible(s) && (best.None? || Score(s) < Score(ShiftOf(candidates[best.value], to)))
                       then Some(n) else best)
  {
    CostIsScore(candidates[n], to);
    if best.Some? {
      CostIsScore(candidates[best.value], to);
    }
  }

  lemma {:induction false} BestFrom(candidates: seq<Box>, to: Box, n: nat, best: Option<nat>)
    requires n <= |candidates| && FirstLeast(candidates, to, n, best)
    ensures FirstLeast(candidates, to, |candidates|, Best(candidates, to, n, best))
    decreases |candidates| - n
  {
    if n < |candidates| {
      OneMoreCandidate(candidates, to, n, best);
      var s := ShiftOf(candidates[n], to);
      BestFrom(candidates, to, n + 1,
               if Plausible(s) && (best.None? || Score(s) < Score(ShiftOf(candidates[best.value], to)))
               then Some(n) else best);
    }
  }

  // ---- the labels that are left

  /** The positions of the items with this label that no match has used, in order. */
  function Left(before: seq<Detection>, used: set<nat>, text: string): (left: seq<nat>)
    ensures forall a :: 0 <= a < |left| ==> left[a] < |before|
  {
    if before == [] then []
    else
      var n := |before| - 1;
      Left(before[..n], used, text) + if before[n].text == text && n !in used then [n] else []
  }

  predicate Free(before: seq<Detection>, used: set<nat>, text: string, i: nat) {
    i < |before| && before[i].text == text && i !in used
  }

  ghost predicate Lists(left: seq<nat>, before: seq<Detection>, used: set<nat>, text: string) {
    && Ascends(left)
    && (forall a :: 0 <= a < |left| ==> Free(before, used, text, left[a]))
    && forall i: nat :: Free(before, used, text, i) ==> exists a :: 0 <= a < |left| && left[a] == i
  }

  predicate Ascends(left: seq<nat>) { forall a, b :: 0 <= a < b < |left| ==> left[a] < left[b] }

  lemma AscendsOn(left: seq<nat>, n: nat)
    requires Ascends(left) && forall a :: 0 <= a < |left| ==> left[a] < n
    ensures Ascends(left + [n])
  {}

  lemma {:induction false} LeftAscends(before: seq<Detection>, used: set<nat>, text: string)
    ensures Ascends(Left(before, used, text))
  {
    if before != [] {
      var front := before[..|before| - 1];
      LeftAscends(front, used, text);
      AscendsOn(Left(front, used, text), |front|);
    }
  }

  lemma {:induction false} LeftAreFree(before: seq<Detection>, used: set<nat>, text: string, a: nat)
    requires a < |Left(before, used, text)|
    ensures Free(before, used, text, Left(before, used, text)[a])
  {
    var front := before[..|before| - 1];
    if a < |Left(front, used, text)| {
      LeftAreFree(front, used, text, a);
    }
  }

  lemma {:induction false} FreeIsLeft(before: seq<Detection>, used: set<nat>, text: string, i: nat) returns (a: nat)
    requires Free(before, used, text, i)
    ensures a < |Left(before, used, text)| && Left(before, used, text)[a] == i
  {
    var n := |before| - 1;
    if i < n {
      assert before[..n][i] == before[i];
      a := FreeIsLeft(before[..n], used, text, i);
    } else {
      a := |Left(before[..n], used, text)|;
    }
  }

  lemma LeftMeaning(before: seq<Detection>, used: set<nat>, text: string)
    ensures Lists(Left(before, used, text), before, used, text)
  {
    LeftAscends(before, used, text);
    var left := Left(before, used, text);
    forall a | 0 <= a < |left| ensures Free(before, used, text, left[a]) {
      LeftAreFree(before, used, text, a);
    }
    forall i: nat | Free(before, used, text, i) ensures exists a :: 0 <= a < |left| && left[a] == i {
      var a := FreeIsLeft(before, used, text, i);
      assert left[a] == i;
    }
  }

  lemma {:induction false} LeftOthers(before: seq<Detection>, used: set<nat>, i: nat, text: string)
    requires i < |before| && before[i].text != text
    ensures Left(before, used + {i}, text) == Left(before, used, text)
  {
    var n := |before| - 1;
    if i < n {
      LeftOthers(before[..n], used, i, text);
    } else {
      LeftBeyond(before[..n], used, n, text);
    }
  }

  lemma {:induction false} LeftBeyond(before: seq<Detection>, used: set<nat>, i: nat, text: string)
    requires |before| <= i
    ensures Left(before, used + {i}, text) == Left(before, used, text)
  {
    if before != [] {
      LeftBeyond(before[..|before| - 1], used, i, text);
    }
  }

  lemma DropFront(some: seq<nat>, last: seq<nat>, r: nat)
    requires r < |some|
    ensures Drop(some + last, r) == Drop(some, r) + last
  {
    assert (some + last)[..r] == some[..r] && (some + last)[r + 1..] == some[r + 1..] + last;
  }

  lemma {:induction false} LeftDrops(before: seq<Detection>, used: set<nat>, text: string, r: nat)
    requires r < |Left(before, used, text)|
    ensures var left := Left(before, used, text);
            Left(before, used + {left[r]}, text) == Drop(left, r)
  {
    var n := |before| - 1;
    var front := before[..n];
    var some := Left(front, used, text);
    LeftAscends(front, used, text);
    if r < |some| {
      LeftDrops(front, used, text, r);
      DropFront(some, if before[n].text == text && n !in used then [n] else [], r);
    } else {
      assert Drop(Left(before, used, text), r) == some;
      LeftBeyond(front, used, n, text);
    }
  }

  function BoxesAt(before: seq<Detection>, left: seq<nat>): (r: seq<Box>)
    requires forall a :: 0 <= a < |left| ==> left[a] < |before|
    ensures |r| == |left| && forall a :: 0 <= a < |left| ==> r[a] == before[left[a]].box
  {
    seq(|left|, a requires 0 <= a < |left| => before[left[a]].box)
  }

  /** The boxes of the items with this label that no match has used. */
  function LeftBoxes(before: seq<Detection>, used: set<nat>, text: string): seq<Box> {
    BoxesAt(before, Left(before, used, text))
  }

  function Held(pool: Pool, text: string): seq<Box> { if text in pool then pool[text] else [] }

  /** The pool holds them under the label. */
  ghost predicate PoolHolds(pool: Pool, before: seq<Detection>, used: set<nat>, text: string) {
    Held(pool, text) == LeftBoxes(before, used, text)
  }

  ghost predicate PoolOk(pool: Pool, before: seq<Detection>, used: set<nat>) {
    forall text :: PoolHolds(pool, before, used, text)
  }

  lemma BoxesOfFront(before: seq<Detection>, left: seq<nat>)
    requires before != [] && forall a :: 0 <= a < |left| ==> left[a] < |before| - 1
    ensures BoxesAt(before[..|before| - 1], left) == BoxesAt(before, left)
  {}

  lemma BoxesAdd(before: seq<Detection>, left: seq<nat>, i: nat)
    requires i < |before| && forall a :: 0 <= a < |left| ==> left[a] < |before|
    ensures BoxesAt(before, left + [i]) == BoxesAt(before, left) + [before[i].box]
  {}

  lemma LeftOne(before: seq<Detection>, text: string)
    requires before != []
    ensures var n := |before| - 1;
            LeftBoxes(before, {}, text)
            == LeftBoxes(before[..n], {}, text) + if before[n].text == text then [before[n].box] else []
  {
    var n := |before| - 1;
    var some := Left(before[..n], {}, text);
    BoxesOfFront(before, some);
    if before[n].text == text {
      BoxesAdd(before, some, n);
    }
  }

  lemma GroupAdds(items: seq<Detection>, text: string)
    requires items != []
    ensures var n := |items| - 1;
            Held(Group(items), text)
            == Held(Group(items[..n]), text) + if items[n].text == text then [items[n].box] else []
  {}

  lemma {:induction false} GroupHolds(before: seq<Detection>, text: string)
    ensures PoolHolds(Group(before), before, {}, text)
  {
    if before != [] {
      GroupHolds(before[..|before| - 1], text);
      LeftOne(before, text);
      GroupAdds(before, text);
    }
  }

  // ---- the matches

  /** The item seen before that `d` is matched to, the ones in `used` being taken: of those with its
      label that did not jump, the first of least cost. */
  ghost predicate Picks(before: seq<Detection>, used: set<nat>, d: Detection, pick: Option<nat>) {
    match pick
    case None => forall i: nat :: Free(before, used, d.text, i) ==> !MayMatch(before[i].box, d.box)
    case Some(i) =>
      && Free(before, used, d.text, i) && MayMatch(before[i].box, d.box)
      && forall j: nat :: Free(before, used, d.text, j) && MayMatch(before[j].box, d.box) ==>
           && Cost(before[i].box, d.box) <= Cost(before[j].box, d.box)
           && (j < i ==> Cost(before[i].box, d.box) < Cost(before[j].box, d.box))
  }

  function Taken(used: set<nat>, pick: Option<nat>): set<nat> { if pick.Some? then used + {pick.value} else used }

  /** The items seen after, longest label first, are matched one after the other. */
  ghost predicate Picked(before: seq<Detection>, used: set<nat>, items: seq<Detection>, k: nat, picks: seq<Option<nat>>)
    requires k <= |items|
    decreases |items| - k
  {
    if k == |items| then picks == []
    else picks != [] && Picks(before, used, items[k], picks[0])
         && Picked(before, Taken(used, picks[0]), items, k + 1, picks[1..])
  }

  /** The displacements that count: those of matches within 150 sideways. */
  function Displacements(before: seq<Detection>, items: seq<Detection>, k: nat, picks: seq<Option<nat>>): seq<Shift>
    requires k <= |items| == k + |picks|
    requires forall a :: 0 <= a < |picks| && picks[a].Some? ==> picks[a].value < |before|
    decreases |picks|
  {
    if picks == [] then []
    else
      var rest := Displacements(before, items, k + 1, picks[1..]);
      if picks[0].None? then rest
      else
        var from, to := before[picks[0].value].box, items[k].box;
        if -150.0 < to.x - from.x < 150.0 then [Shift(to.x - from.x, to.y - from.y)] + rest else rest
  }

  lemma PickOf(before: seq<Detection>, used: set<nat>, d: Detection, pool: Pool) returns (pick: Option<nat>)
    requires PoolHolds(pool, before, used, d.text)
    ensures Picks(before, used, d, pick)
    ensures pick.Some? <==> d.text in pool && Best(pool[d.text], d.box, 0, None).Some?
    ensures pick.Some? ==>
              var left, r := Left(before, used, d.text), Best(pool[d.text], d.box, 0, None).value;
              r < |left| == |pool[d.text]| && pick.value == left[r] && pool[d.text][r] == before[pick.value].box
  {
    pick := None;
    var left := Left(before, used, d.text);
    LeftMeaning(before, used, d.text);
    if d.text in pool {
      var candidates := pool[d.text];
      BestFrom(candidates, d.box, 0, None);
      var best := Best(candidates, d.box, 0, None);
      if best.Some? {
        pick := Some(left[best.value]);
        forall j: nat | Free(before, used, d.text, j) && MayMatch(before[j].box, d.box)
          ensures Cost(before[pick.value].box, d.box) <= Cost(before[j].box, d.box)
          ensures j < pick.value ==> Cost(before[pick.value].box, d.box) < Cost(before[j].box, d.box)
        {
          var a :| 0 <= a < |left| && left[a] == j;
          assert candidates[a] == before[j].box;
        }
      } else {
        forall j: nat | Free(before, used, d.text, j) ensures !MayMatch(before[j].box, d.box) {
          var a :| 0 <= a < |left| && left[a] == j;
          assert candidates[a] == before[j].box;
        }
      }
    }
  }

  lemma BoxesDrop(before: seq<Detection>, left: seq<nat>, r: nat)
    requires r < |left| && forall a :: 0 <= a < |left| ==> left[a] < |before|
    ensures BoxesAt(before, Drop(left, r)) == Drop(BoxesAt(before, left), r)
  {}

  lemma PoolDrops(before: seq<Detection>, used: set<nat>, pool: Pool, text: string, r: nat, other: string)
    requires PoolHolds(pool, before, used, text) && PoolHolds(pool, before, used, other)
    requires text in pool && r < |pool[text]|
    ensures r < |Left(before, used, text)|
    ensures PoolHolds(pool[text := Drop(pool[text], r)], before, used + {Left(before, used, text)[r]}, other)
  {
    var left := Left(before, used, text);
    if other == text {
      LeftDrops(before, used, text, r);
      BoxesDrop(before, left, r);
    } else {
      LeftAreFree(before, used, text, r);
      LeftOthers(before, used, left[r], other);
    }
  }

  /** The item at `k` finds no match. */
  lemma MatchMisses(before: seq<Detection>, used: set<nat>, items: seq<Detection>, k: nat, pool: Pool)
    requires k < |items|
    requires items[k].text !in pool || Best(pool[items[k].text], items[k].box, 0, None).None?
    ensures Match(items, k, pool) == Match(items, k + 1, pool)
  {}

  /** It finds one. */
  lemma MatchHits(items: seq<Detection>, k: nat, pool: Pool, r: nat)
    requires k < |items| && items[k].text in pool && Best(pool[items[k].text], items[k].box, 0, None) == Some(r)
    ensures r < |pool[items[k].text]|
    ensures var d := items[k];
            var from := pool[d.text][r];
            Match(items, k, pool)
            == (if -150.0 < d.box.x - from.x < 150.0 then [Shift(d.box.x - from.x, d.box.y - from.y)] else [])
               + Match(items, k + 1, pool[d.text := Drop(pool[d.text], r)])
  {}

  lemma {:induction false} MatchPicks(before: seq<Detection>, used: set<nat>, items: seq<Detection>, k: nat, pool: Pool)
    returns (picks: seq<Option<nat>>)
    requires k <= |items| && PoolOk(pool, before, used)
    ensures Picked(before, used, items, k, picks) && |items| == k + |picks|
    ensures forall a :: 0 <= a < |picks| && picks[a].Some? ==> picks[a].value < |before|
    ensures Match(items, k, pool) == Displacements(before, items, k, picks)
    decreases |items| - k
  {
    if k == |items| {
      picks := [];
    } else {
      var d := items[k];
      assert PoolHolds(pool, before, used, d.text);
      var pick := PickOf(before, used, d, pool);
      if pick.None? {
        MatchMisses(before, used, items, k, pool);
        picks := MatchPicks(before, used, items, k + 1, pool);
        picks := PickedMore(before, used, items, k, pick, picks);
      } else {
        var r := Best(pool[d.text], d.box, 0, None).value;
        var rest := pool[d.text := Drop(pool[d.text], r)];
        forall other ensures PoolHolds(rest, before, used + {pick.value}, other) {
          assert PoolHolds(pool, before, used, other);
          PoolDrops(before, used, pool, d.text, r, other);
        }
        MatchHits(items, k, pool, r);
        picks := MatchPicks(before, used + {pick.value}, items, k + 1, rest);
        picks := PickedMore(before, used, items, k, pick, picks);
      }
    }
  }

  lemma PickedMore(before: seq<Detection>, used: set<nat>, items: seq<Detection>, k: nat, pick: Option<nat>,
                   later: seq<Option<nat>>)
    returns (picks: seq<Option<nat>>)
    requires k < |items| && Picks(before, used, items[k], pick) && |items| == k + 1 + |later|
    requires Picked(before, Taken(used, pick), items, k + 1, later)
    requires forall a :: 0 <= a < |later| && later[a].Some? ==> later[a].value < |before|
    ensures picks == [pick] + later && Picked(before, used, items, k, picks)
    ensures forall a :: 0 <= a < |picks| && picks[a].Some? ==> picks[a].value < |before|
    ensures Displacements(before, items, k, picks)
         == (if pick.Some? && -150.0 < items[k].box.x - before[pick.value].box.x < 150.0
             then [Shift(items[k].box.x - before[pick.value].box.x, items[k].box.y - before[pick.value].box.y)] else [])
            + Displacements(before, items, k + 1, later)
  {
    picks := [pick] + later;
    assert picks[1..] == later;
  }

  // ---- the order of the labels

  predicate LongestFirst(items: seq<Detection>) {
    forall i, j :: 0 <= i < j < |items| ==> |items[i].text| >= |items[j].text|
  }

  /** The items whose label has this length, in order. */
  function OfLength(items: seq<Detection>, n: nat): seq<Detection> {
    if items == [] then [] else (if |items[0].text| == n then [items[0]] else []) + OfLength(items[1..], n)
  }

  lemma {:induction false} OfLengthSplits(a: seq<Detection>, b: seq<Detection>, n: nat)
    ensures OfLength(a + b, n) == OfLength(a, n) + OfLength(b, n)
  {
    if a == [] {
      assert a + b == b;
    } else {
      assert (a + b)[0] == a[0] && (a + b)[1..] == a[1..] + b;
      OfLengthSplits(a[1..], b, n);
    }
  }

  lemma {:induction false} InsertKeepsOrder(d: Detection, sorted: seq<Detection>)
    requires LongestFirst(sorted)
    ensures LongestFirst(Insert(d, sorted)) && |Insert(d, sorted)| == |sorted| + 1
    ensures |Insert(d, sorted)[0].text|
         == if sorted == [] || |d.text| > |sorted[0].text| then |d.text| else |sorted[0].text|
  {
    if sorted == [] || |d.text| > |sorted[0].text| {
      FirstIsLongest(d, sorted);
    } else {
      InsertKeepsOrder(d, sorted[1..]);
      FirstIsLongest(sorted[0], Insert(d, sorted[1..]));
    }
  }

  lemma {:induction false} InsertIsStable(d: Detection, sorted: seq<Detection>, n: nat)
    requires LongestFirst(sorted)
    ensures OfLength(Insert(d, sorted), n) == OfLength(sorted, n) + if |d.text| == n then [d] else []
  {
    if sorted == [] || |d.text| > |sorted[0].text| {
      NoneSoLong(sorted, |d.text|);
      OfLengthSplits([d], sorted, n);
      assert OfLength([d], n) == if |d.text| == n then [d] else [];
    } else {
      InsertIsStable(d, sorted[1..], n);
      OfLengthSplits([sorted[0]], Insert(d, sorted[1..]), n);
      OfLengthSplits([sorted[0]], sorted[1..], n);
      assert [sorted[0]] + sorted[1..] == sorted;
    }
  }

  lemma FirstIsLongest(first: Detection, rest: seq<Detection>)
    requires LongestFirst(rest) && (rest != [] ==> |first.text| >= |rest[0].text|)
    ensures LongestFirst([first] + rest)
  {}

  lemma {:induction false} NoneSoLong(sorted: seq<Detection>, n: nat)
    requires LongestFirst(sorted) && (sorted != [] ==> n > |sorted[0].text|)
    ensures OfLength(sorted, n) == []
  {
    if sorted != [] {
      NoneSoLong(sorted[1..], n);
    }
  }

  /** The items seen after are sorted stably, longest label first. */
  lemma {:induction false} SortedExactly(items: seq<Detection>, n: nat)
    ensures LongestFirst(SortByLength(items)) && |SortByLength(items)| == |items|
    ensures OfLength(SortByLength(items), n) == OfLength(items, n)
  {
    if items != [] {
      var front, d := items[..|items| - 1], items[|items| - 1];
      SortedExactly(front, n);
      InsertKeepsOrder(d, SortByLength(front));
      InsertIsStable(d, SortByLength(front), n);
      OfLengthSplits(front, [d], n);
      assert items == front + [d];
      assert OfLength([d], n) == if |d.text| == n then [d] else [];
    }
  }

  // ---- what is extracted

  /** The detection has a label and lies within 15 of the target's bounds, if there are any. */
  predicate Kept(d: Detection, lens: Lens) {
    && lens.normalize(d.text) != ""
    && match lens.bounds
       case None => true
       case Some(t) =>
         && t.x - 15.0 <= d.box.x && d.box.x <= t.x + t.w + 15.0
         && t.y - 15.0 <= d.box.y && d.box.y <= t.y + t.h + 15.0
  }

  /** The detections that are kept, in order, under their normal labels. */
  lemma ExtractExactly(a: seq<Detection>, d: Detection, lens: Lens)
    ensures Extract([], lens) == []
    ensures Extract(a + [d], lens)
         == Extract(a, lens) + if Kept(d, lens) then [Detection(lens.normalize(d.text), d.box)] else []
  {
    assert (a + [d])[..|a|] == a;
  }

  // ---- the verdict

  /** Some displacement reaches the threshold. */
  predicate Displaced(shifts: seq<Shift>, least: real) {
    exists k :: 0 <= k < |shifts| && (Size(shifts[k].dx) >= least || Size(shifts[k].dy) >= least)
  }

  /** Some label is on one screen only. */
  ghost predicate Churned(before: seq<Detection>, after: seq<Detection>) {
    || (exists i :: 0 <= i < |before| && forall j :: 0 <= j < |after| ==> after[j].text != before[i].text)
    || (exists j :: 0 <= j < |after| && forall i :: 0 <= i < |before| ==> before[i].text != after[j].text)
  }

  lemma ChurnExactly(before: seq<Detection>, after: seq<Detection>)
    ensures Churned(before, after) <==> Labels(before) != Labels(after)
  {
    assert forall i :: 0 <= i < |before| ==> before[i].text in Labels(before);
    assert forall j :: 0 <= j < |after| ==> after[j].text in Labels(after);
    if Labels(before) == Labels(after) {
      forall i | 0 <= i < |before| ensures exists j :: 0 <= j < |after| && after[j].text == before[i].text {
        assert before[i].text in Labels(after);
      }
      forall j | 0 <= j < |after| ensures exists i :: 0 <= i < |before| && before[i].text == after[j].text {
        assert after[j].text in Labels(before);
      }
    } else if exists t :: t in Labels(before) && t !in Labels(after) {
      var t :| t in Labels(before) && t !in Labels(after);
      var i :| 0 <= i < |before| && before[i].text == t;
    } else {
      var t :| t in Labels(after) && t !in Labels(before);
      var j :| 0 <= j < |after| && after[j].text == t;
    }
  }

  /** What the extracted items and the displacements of their matches amount to. */
  ghost predicate Concludes(verdict: Verdict, before: seq<Detection>, after: seq<Detection>, shifts: seq<Shift>,
                            least: real)
  {
    if before == [] || after == [] then verdict == Verdict(UNKNOWN, Some(UnknownFailure))
    else if Displaced(shifts, least) || (|before| >= 3 && |after| >= 3 && Churned(before, after)) then
      verdict == Verdict(TRUE, None)
    else if |shifts| >= 3 then verdict == Verdict(FALSE, Some(ClickNoEffect))
    else verdict == Verdict(UNKNOWN, Some(UnknownFailure))
  }

  lemma DisplacedExactly(shifts: seq<Shift>, least: real)
    ensures Displaced(shifts, least) <==> exists s :: s in shifts && Moved(s, least)
  {
    if s :| s in shifts && Moved(s, least) {
      var k :| 0 <= k < |shifts| && shifts[k] == s;
      assert Size(shifts[k].dx) >= least || Size(shifts[k].dy) >= least;
    }
    if k :| 0 <= k < |shifts| && (Size(shifts[k].dx) >= least || Size(shifts[k].dy) >= least) {
      assert shifts[k] in shifts && Moved(shifts[k], least);
    }
  }

  lemma JudgeExactly(before: seq<Detection>, after: seq<Detection>, least: real, shifts: seq<Shift>)
    requires shifts == Match(SortByLength(after), 0, Group(before))
    ensures Concludes(Judge(before, after, least), before, after, shifts, least)
  {
    ChurnExactly(before, after);
    DisplacedExactly(shifts, least);
  }

  /** The verdict on a scroll, exactly: unknown without a fresh observation; else every item seen after,
      longest label first, is matched to the cheapest item seen before that has its label, did not jump
      and is not taken, and the displacements of those within 150 sideways decide, or labels that came
      or went. */
  lemma ScrollJudgedExactly(before: seq<Detection>, after: seq<Detection>, lens: Lens, least: real,
                            beforeAt: Option<int>, afterAt: Option<int>) returns (picks: seq<Option<nat>>)
    ensures var b, a := Extract(before, lens), SortByLength(Extract(after, lens));
            var verdict := VerifyScroll(before, after, lens, least, beforeAt, afterAt);
            && Picked(b, {}, a, 0, picks) && |picks| == |a|
            && (forall k :: 0 <= k < |picks| && picks[k].Some? ==> picks[k].value < |b|)
            && if afterAt.None? then verdict == Verdict(UNKNOWN, Some(UnknownFailure))
               else if beforeAt.Some? && afterAt.value <= beforeAt.value then
                 verdict == Verdict(UNKNOWN, Some(StaleTarget))
               else Concludes(verdict, b, Extract(after, lens), Displacements(b, a, 0, picks), least)
  {
    var b, a := Extract(before, lens), SortByLength(Extract(after, lens));
    forall text ensures PoolHolds(Group(b), b, {}, text) {
      GroupHolds(b, text);
    }
    picks := MatchPicks(b, {}, a, 0, Group(b));
    JudgeExactly(b, Extract(after, lens), least, Match(a, 0, Group(b)));
  }
}
