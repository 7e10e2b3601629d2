/** What the greedy matcher proves about a scroll. */
module ScrollFacts {
  import opened Domain
  import opened ScrollCheck

  // ---- labels with positions, sizes left out

  datatype Spot = Spot(text: string, x: real, y: real)

  function SpotOf(d: Detection): Spot { Spot(d.text, d.box.x, d.box.y) }

  function SpotSeq(items: seq<Detection>): (r: seq<Spot>)
    ensures |r| == |items| && forall i :: 0 <= i < |r| ==> r[i] == SpotOf(items[i])
  {
    seq(|items|, i requires 0 <= i < |items| => SpotOf(items[i]))
  }

  function Spots(items: seq<Detection>): multiset<Spot> { multiset(SpotSeq(items)) }

  lemma SpotsConcat(a: seq<Detection>, b: seq<Detection>)
    ensures Spots(a + b) == Spots(a) + Spots(b)
  {
    assert SpotSeq(a + b) == SpotSeq(a) + SpotSeq(b);
  }

  lemma SpotsOne(d: Detection)
    ensures Spots([d]) == multiset{SpotOf(d)}
  {
    assert SpotSeq([d]) == [SpotOf(d)];
  }

  lemma {:induction false} InsertSpots(d: Detection, sorted: seq<Detection>)
    ensures Spots(Insert(d, sorted)) == Spots([d]) + Spots(sorted)
  {
    if sorted == [] || |d.text| > |sorted[0].text| {
      SpotsConcat([d], sorted);
    } else {
      InsertSpots(d, sorted[1..]);
      SpotsConcat([sorted[0]], Insert(d, sorted[1..]));
      SpotsConcat([sorted[0]], sorted[1..]);
      assert [sorted[0]] + sorted[1..] == sorted;
    }
  }

  lemma {:induction false} InsertMembers(d: Detection, sorted: seq<Detection>)
    ensures |Insert(d, sorted)| == |sorted| + 1
    ensures forall e :: e in Insert(d, sorted) <==> e == d || e in sorted
  {
    if sorted != [] {
      InsertMembers(d, sorted[1..]);
      assert [sorted[0]] + sorted[1..] == sorted;
    }
  }

  lemma {:induction false} SortSpots(items: seq<Detection>)
    ensures Spots(SortByLength(items)) == Spots(items)
  {
    if items != [] {
      var front, d := items[..|items| - 1], items[|items| - 1];
      SortSpots(front);
      InsertSpots(d, SortByLength(front));
      SpotsConcat(front, [d]);
      assert items == front + [d];
    }
  }

  lemma {:induction false} SortMembers(items: seq<Detection>)
    ensures |SortByLength(items)| == |items|
    ensures forall e :: e in SortByLength(items) <==> e in items
  {
    if items != [] {
      var front, d := items[..|items| - 1], items[|items| - 1];
      SortMembers(front);
      InsertMembers(d, SortByLength(front));
      assert items == front + [d];
    }
  }

  // ---- the pool of candidates

  function BoxSeq(text: string, boxes: seq<Box>): (r: seq<Spot>)
    ensures |r| == |boxes| && forall i :: 0 <= i < |r| ==> r[i] == Spot(text, boxes[i].x, boxes[i].y)
  {
    seq(|boxes|, i requires 0 <= i < |boxes| => Spot(text, boxes[i].x, boxes[i].y))
  }

  function BoxSpots(text: string, boxes: seq<Box>): multiset<Spot> { multiset(BoxSeq(text, boxes)) }

  function PoolCount(pool: Pool, s: Spot): nat {
    if s.text in pool then BoxSpots(s.text, pool[s.text])[s] else 0
  }

  lemma BoxSpotsHas(text: string, boxes: seq<Box>, s: Spot) returns (j: nat)
    requires BoxSpots(text, boxes)[s] > 0
    ensures j < |boxes| && s == Spot(text, boxes[j].x, boxes[j].y)
  {
    assert s in BoxSeq(text, boxes);
    j :| 0 <= j < |boxes| && BoxSeq(text, boxes)[j] == s;
  }

  lemma DropSpots(text: string, boxes: seq<Box>, i: nat)
    requires i < |boxes|
    ensures BoxSpots(text, boxes) == BoxSpots(text, Drop(boxes, i)) + multiset{Spot(text, boxes[i].x, boxes[i].y)}
  {
    var all := BoxSeq(text, boxes);
    assert all == all[..i] + ([all[i]] + all[i + 1..]);
    assert BoxSeq(text, Drop(boxes, i)) == all[..i] + all[i + 1..];
  }

  lemma BoxSpotsAdd(text: string, boxes: seq<Box>, b: Box)
    ensures BoxSpots(text, boxes + [b]) == BoxSpots(text, boxes) + multiset{Spot(text, b.x, b.y)}
  {
    assert BoxSeq(text, boxes + [b]) == BoxSeq(text, boxes) + [Spot(text, b.x, b.y)];
  }

  lemma GroupOne(m: Pool, d: Detection, s: Spot)
    ensures PoolCount(m[d.text := (if d.text in m then m[d.text] else []) + [d.box]], s)
         == PoolCount(m, s) + if s == SpotOf(d) then 1 else 0
  {
    BoxSpotsAdd(d.text, if d.text in m then m[d.text] else [], d.box);
  }

  lemma {:induction false} GroupSpots(items: seq<Detection>, s: Spot)
    ensures PoolCount(Group(items), s) == Spots(items)[s]
  {
    if items != [] {
      var front, d := items[..|items| - 1], items[|items| - 1];
      GroupSpots(front, s);
      GroupOne(Group(front), d, s);
      SpotsConcat(front, [d]);
      SpotsOne(d);
      assert items == front + [d];
    }
  }

  // ---- the best candidate

  lemma {:induction false} BestIsLeast(candidates: seq<Box>, to: Box, i: nat, best: Option<nat>)
    requires i <= |candidates|
             && (best.Some? ==> best.value < |candidates| && Plausible(ShiftOf(candidates[best.value], to)))
    ensures var r := Best(candidates, to, i, best);
            && (r.Some? ==> Plausible(ShiftOf(candidates[r.value], to)))
            && (best.Some? ==>
                  r.Some? && Score(ShiftOf(candidates[r.value], to)) <= Score(ShiftOf(candidates[best.value], to)))
            && (forall j :: i <= j < |candidates| && Plausible(ShiftOf(candidates[j], to)) ==>
                  r.Some? && Score(ShiftOf(candidates[r.value], to)) <= Score(ShiftOf(candidates[j], to)))
    decreases |candidates| - i
  {
    if i < |candidates| {
      var s := ShiftOf(candidates[i], to);
      if Plausible(s) && (best.None? || Score(s) < Score(ShiftOf(candidates[best.value], to))) {
        BestIsLeast(candidates, to, i + 1, Some(i));
      } else {
        BestIsLeast(candidates, to, i + 1, best);
      }
    }
  }

  lemma ZeroScore(s: Shift)
    ensures Score(s) >= 0.0 && (Score(s) == 0.0 <==> s == Shift(0.0, 0.0))
  {}

  /** If some candidate is where the item is, the best one is. */
  lemma BestStays(candidates: seq<Box>, to: Box, j: nat)
    requires j < |candidates| && candidates[j].x == to.x && candidates[j].y == to.y
    ensures var r := Best(candidates, to, 0, None);
            r.Some? && ShiftOf(candidates[r.value], to) == Shift(0.0, 0.0)
  {
    BestIsLeast(candidates, to, 0, None);
    ZeroScore(ShiftOf(candidates[j], to));
    assert Plausible(ShiftOf(candidates[j], to));
    var r := Best(candidates, to, 0, None);
    ZeroScore(ShiftOf(candidates[r.value], to));
  }

  // ---- an unchanged screen

  lemma HeadSpots(items: seq<Detection>, k: nat)
    requires k < |items|
    ensures Spots(items[k..]) == multiset{SpotOf(items[k])} + Spots(items[k + 1..])
  {
    SpotsConcat([items[k]], items[k + 1..]);
    SpotsOne(items[k]);
    assert [items[k]] + items[k + 1..] == items[k..];
  }

  ghost predicate AllInStep(items: seq<Detection>, k: nat, pool: Pool)
    requires k <= |items|
  {
    forall s: Spot :: PoolCount(pool, s) == Spots(items[k..])[s]
  }

  /** The first item has a candidate in its place; using that candidate up keeps step. */
  lemma StepStays(items: seq<Detection>, k: nat, pool: Pool)
    requires k < |items| && AllInStep(items, k, pool)
    ensures var d := items[k];
            && d.text in pool
            && var found := Best(pool[d.text], d.box, 0, None);
               && found.Some? && ShiftOf(pool[d.text][found.value], d.box) == Shift(0.0, 0.0)
               && AllInStep(items, k + 1, pool[d.text := Drop(pool[d.text], found.value)])
  {
    var d := items[k];
    var here := SpotOf(d);
    HeadSpots(items, k);
    assert PoolCount(pool, here) == Spots(items[k..])[here];
    var j := BoxSpotsHas(d.text, pool[d.text], here);
    BestStays(pool[d.text], d.box, j);
    var found := Best(pool[d.text], d.box, 0, None).value;
    DropSpots(d.text, pool[d.text], found);
    var rest := pool[d.text := Drop(pool[d.text], found)];
    forall s: Spot ensures PoolCount(rest, s) == Spots(items[k + 1..])[s] {
      assert PoolCount(pool, s) == Spots(items[k..])[s];
    }
  }

  lemma {:induction false} MatchStays(items: seq<Detection>, k: nat, pool: Pool)
    requires k <= |items| && AllInStep(items, k, pool)
    ensures Match(items, k, pool) == seq(|items| - k, _ => Shift(0.0, 0.0))
    decreases |items| - k
  {
    if k < |items| {
      StepStays(items, k, pool);
      var d := items[k];
      var found := Best(pool[d.text], d.box, 0, None).value;
      MatchStays(items, k + 1, pool[d.text := Drop(pool[d.text], found)]);
    }
  }

  // ---- extraction keeps permutations

  function ExtractOne(d: Detection, lens: Lens): seq<Detection> {
    if lens.normalize(d.text) != "" && Inside(d.box, lens.bounds) then [Detection(lens.normalize(d.text), d.box)]
      else []
  }

  lemma {:induction false} ExtractConcat(a: seq<Detection>, b: seq<Detection>, lens: Lens)
    ensures Extract(a + b, lens) == Extract(a, lens) + Extract(b, lens)
  {
    if b == [] {
      assert a + b == a;
    } else {
      assert (a + b)[..|a + b| - 1] == a + b[..|b| - 1];
      ExtractConcat(a, b[..|b| - 1], lens);
    }
  }

  lemma SameSpotExtracts(c: Detection, d: Detection, lens: Lens)
    requires SpotOf(c) == SpotOf(d)
    ensures Spots(ExtractOne(c, lens)) == Spots(ExtractOne(d, lens))
  {
    assert SpotSeq(ExtractOne(c, lens)) == SpotSeq(ExtractOne(d, lens));
  }

  lemma ExtractSpotsConcat(a: seq<Detection>, d: Detection, b: seq<Detection>, lens: Lens)
    ensures Spots(Extract(a + [d] + b, lens)) == Spots(Extract(a + b, lens)) + Spots(ExtractOne(d, lens))
  {
    ExtractConcat(a + [d], b, lens);
    ExtractConcat(a, [d], lens);
    ExtractConcat(a, b, lens);
    assert Extract([d], lens) == ExtractOne(d, lens) by {
      assert [d][..0] == [];
    }
    SpotsConcat(Extract(a, lens) + Extract([d], lens), Extract(b, lens));
    SpotsConcat(Extract(a, lens), Extract([d], lens));
    SpotsConcat(Extract(a, lens), Extract(b, lens));
  }

  function Without(items: seq<Detection>, i: nat): seq<Detection>
    requires i < |items|
  {
    items[..i] + items[i + 1..]
  }

  lemma PullSpot(items: seq<Detection>, i: nat)
    requires i < |items|
    ensures Spots(items) == Spots(Without(items, i)) + multiset{SpotOf(items[i])}
  {
    assert items == items[..i] + [items[i]] + items[i + 1..];
    SpotsConcat(items[..i] + [items[i]], items[i + 1..]);
    SpotsConcat(items[..i], [items[i]]);
    SpotsConcat(items[..i], items[i + 1..]);
    SpotsOne(items[i]);
  }

  lemma PullExtract(items: seq<Detection>, i: nat, lens: Lens)
    requires i < |items|
    ensures Spots(Extract(items, lens)) == Spots(Extract(Without(items, i), lens)) + Spots(ExtractOne(items[i], lens))
  {
    assert items == items[..i] + [items[i]] + items[i + 1..];
    ExtractSpotsConcat(items[..i], items[i], items[i + 1..], lens);
  }

  lemma FindSpot(items: seq<Detection>, s: Spot) returns (i: nat)
    requires Spots(items)[s] > 0
    ensures i < |items| && SpotOf(items[i]) == s
  {
    assert s in SpotSeq(items);
    i :| i < |SpotSeq(items)| && SpotSeq(items)[i] == s;
  }

  lemma {:induction false} ExtractPermutes(a: seq<Detection>, b: seq<Detection>, lens: Lens)
    requires Spots(a) == Spots(b)
    ensures Spots(Extract(a, lens)) == Spots(Extract(b, lens))
  {
    if a == [] {
      assert |SpotSeq(b)| == |Spots(b)| == |Spots(a)| == 0;
    } else {
      var spot := SpotOf(a[0]);
      PullSpot(a, 0);
      assert Spots(a)[spot] == Spots(Without(a, 0))[spot] + 1;
      var i := FindSpot(b, spot);
      PullSpot(b, i);
      assert Spots(Without(a, 0)) == Spots(a) - multiset{spot} == Spots(Without(b, i));
      ExtractPermutes(Without(a, 0), Without(b, i), lens);
      PullExtract(a, 0, lens);
      PullExtract(b, i, lens);
      SameSpotExtracts(a[0], b[i], lens);
    }
  }

  lemma SpotLabels(items: seq<Detection>, t: string)
    ensures t in Labels(items) <==> exists s: Spot :: s.text == t && s in Spots(items)
  {
    if t in Labels(items) {
      var i :| 0 <= i < |items| && items[i].text == t;
      assert SpotSeq(items)[i] in Spots(items);
    }
    if exists s: Spot :: s.text == t && s in Spots(items) {
      var s: Spot :| s.text == t && s in Spots(items);
      assert s in SpotSeq(items);
      var i :| 0 <= i < |items| && SpotSeq(items)[i] == s;
      assert items[i] in items;
    }
  }

  lemma SameLabels(a: seq<Detection>, b: seq<Detection>)
    requires Spots(a) == Spots(b)
    ensures Labels(a) == Labels(b)
  {
    forall t ensures t in Labels(a) <==> t in Labels(b) {
      SpotLabels(a, t);
      SpotLabels(b, t);
    }
  }

  /** If the labels after are those before, at the same places, in any order and duplicates
      included, every item is matched with a zero shift and the verdict is never TRUE. */
  lemma UnchangedScreenIsNeverTrue(before: seq<Detection>, after: seq<Detection>, lens: Lens, least: real,
                                   beforeAt: Option<int>, afterAt: Option<int>)
    requires Spots(before) == Spots(after)
    requires least > 0.0
    ensures var b, a := Extract(before, lens), Extract(after, lens);
            Match(SortByLength(a), 0, Group(b)) == seq(|a|, _ => Shift(0.0, 0.0))
    ensures VerifyScroll(before, after, lens, least, beforeAt, afterAt).verified != TRUE
  {
    var b, a := Extract(before, lens), Extract(after, lens);
    ExtractPermutes(before, after, lens);
    StationaryItems(b, a, least);
  }

  lemma StationaryMatch(b: seq<Detection>, a: seq<Detection>)
    requires Spots(b) == Spots(a)
    ensures Match(SortByLength(a), 0, Group(b)) == seq(|a|, _ => Shift(0.0, 0.0))
  {
    SortSpots(a);
    SortMembers(a);
    var sorted := SortByLength(a);
    assert sorted[0..] == sorted;
    assert AllInStep(sorted, 0, Group(b)) by {
      forall s: Spot ensures PoolCount(Group(b), s) == Spots(sorted[0..])[s] {
        GroupSpots(b, s);
      }
    }
    MatchStays(sorted, 0, Group(b));
  }

  lemma ZeroShifts(shifts: seq<Shift>, n: nat, least: real)
    requires shifts == seq(n, _ => Shift(0.0, 0.0))
    ensures (exists s :: s in shifts && Moved(s, least)) <==> n > 0 && least <= 0.0
  {
    if n > 0 {
      assert shifts[0] == Shift(0.0, 0.0) && shifts[0] in shifts;
    }
  }

  lemma StationaryItems(b: seq<Detection>, a: seq<Detection>, least: real)
    requires Spots(b) == Spots(a)
    ensures Match(SortByLength(a), 0, Group(b)) == seq(|a|, _ => Shift(0.0, 0.0))
    ensures a != [] ==>
              Judge(b, a, least).verified == if least <= 0.0 then TRUE else if |a| >= 3 then FALSE else UNKNOWN
    ensures a == [] ==> Judge(b, a, least).verified == UNKNOWN
  {
    StationaryMatch(b, a);
    ZeroShifts(Match(SortByLength(a), 0, Group(b)), |a|, least);
    SameLabels(b, a);
    assert |SpotSeq(b)| == |Spots(b)| == |Spots(a)| == |SpotSeq(a)|;
  }

  /** The verdict on an unchanged screen, whatever the order of its labels: it is TRUE exactly when
      the two observations are fresh, some label is seen and the threshold is zero or less. The
      threshold's guard is therefore exactly what the previous result needs. */
  lemma ThresholdMatters(before: seq<Detection>, after: seq<Detection>, lens: Lens, least: real,
                         beforeAt: Option<int>, afterAt: Option<int>)
    requires Spots(before) == Spots(after)
    ensures VerifyScroll(before, after, lens, least, beforeAt, afterAt).verified == TRUE <==>
            && afterAt.Some? && (beforeAt.Some? ==> beforeAt.value < afterAt.value)
            && Extract(after, lens) != [] && least <= 0.0
  {
    ExtractPermutes(before, after, lens);
    StationaryItems(Extract(before, lens), Extract(after, lens), least);
  }

  // ---- a uniform shift

  predicate DistinctLabels(items: seq<Detection>) {
    forall i, j :: 0 <= i < j < |items| ==> items[i].text != items[j].text
  }

  function Scrolled(d: Detection, dy: real): Detection { d.(box := d.box.(y := d.box.y + dy)) }

  lemma {:induction false} GroupDistinct(items: seq<Detection>, i: nat)
    requires i < |items| && DistinctLabels(items)
    ensures items[i].text in Group(items) && Group(items)[items[i].text] == [items[i].box]
    ensures forall t :: t in Group(items) ==> exists j :: 0 <= j < |items| && items[j].text == t
  {
    var front, d := items[..|items| - 1], items[|items| - 1];
    GroupKeys(items);
    if i < |items| - 1 {
      GroupDistinct(front, i);
      assert front[i] == items[i];
    } else {
      GroupKeys(front);
      assert d.text !in Group(front);
    }
  }

  lemma {:induction false} GroupKeys(items: seq<Detection>)
    ensures forall t :: t in Group(items) <==> exists j :: 0 <= j < |items| && items[j].text == t
  {
    if items != [] {
      var front := items[..|items| - 1];
      GroupKeys(front);
      forall t | t in Group(items) ensures exists j :: 0 <= j < |items| && items[j].text == t {
        if t in Group(front) {
          var j :| 0 <= j < |front| && front[j].text == t;
          assert items[j].text == t;
        } else {
          assert items[|items| - 1].text == t;
        }
      }
      forall j | 0 <= j < |items| ensures items[j].text in Group(items) {
        if j < |front| {
          assert front[j].text in Group(front);
        }
      }
    }
  }

  /** Distinct items that all moved by the same vertical shift of at least the threshold. */
  lemma UniformItems(before: seq<Detection>, after: seq<Detection>, dy: real, least: real)
    requires DistinctLabels(before) && after != []
    requires forall d :: d in after ==> exists i :: 0 <= i < |before| && d == Scrolled(before[i], dy)
    requires Abs(dy) >= least
    ensures Judge(before, after, least).verified == TRUE
  {
    SortMembers(after);
    var sorted := SortByLength(after);
    var first := sorted[0];
    assert first in after;
    var i :| 0 <= i < |before| && first == Scrolled(before[i], dy);
    GroupDistinct(before, i);
    var pool := Group(before);
    assert pool[first.text] == [before[i].box];
    var s := ShiftOf(before[i].box, first.box);
    assert s == Shift(0.0, dy) && Plausible(s);
    assert Best([before[i].box], first.box, 0, None) == Best([before[i].box], first.box, 1, Some(0)) == Some(0);
    var shifts := Match(sorted, 0, pool);
    assert shifts[0] == s;
    assert s in shifts && Moved(s, least);
  }

  predicate Visible(d: Detection, lens: Lens) { lens.normalize(d.text) != "" && Inside(d.box, lens.bounds) }

  lemma {:induction false} ExtractMembers(items: seq<Detection>, lens: Lens)
    ensures forall d :: d in items && Visible(d, lens) ==>
            Detection(lens.normalize(d.text), d.box) in Extract(items, lens)
    ensures forall e :: e in Extract(items, lens) ==>
              exists i :: 0 <= i < |items| && Visible(items[i], lens)
                && e == Detection(lens.normalize(items[i].text), items[i].box)
  {
    if items != [] {
      var front, d := items[..|items| - 1], items[|items| - 1];
      ExtractMembers(front, lens);
      assert items == front + [d];
      forall e | e in Extract(items, lens)
        ensures exists i ::
                  0 <= i < |items| && Visible(items[i], lens)
                  && e == Detection(lens.normalize(items[i].text), items[i].box)
      {
        if e in Extract(front, lens) {
          var i :| 0 <= i < |front| && Visible(front[i], lens)
            && e == Detection(lens.normalize(front[i].text), front[i].box);
          assert items[i] == front[i];
        } else {
          assert items[|items| - 1] == d && Visible(d, lens);
        }
      }
    }
  }

  /** With distinct labels, no target bounds and one vertical shift of at least the threshold
      for all of them, the verdict is TRUE, whatever the order of the labels. */
  lemma UniformScrollIsTrue(before: seq<Detection>, after: seq<Detection>, lens: Lens, dy: real, least: real,
                            beforeAt: Option<int>, afterAt: int)
    requires lens.bounds == None && DistinctLabels(Extract(before, lens))
    requires forall d :: d in after ==> exists i :: 0 <= i < |before| && d == Scrolled(before[i], dy)
    requires exists d :: d in after && lens.normalize(d.text) != ""
    requires Abs(dy) >= least
    requires beforeAt.Some? ==> beforeAt.value < afterAt
    ensures VerifyScroll(before, after, lens, least, beforeAt, Some(afterAt)).verified == TRUE
  {
    ExtractMembers(after, lens);
    var b, a := Extract(before, lens), Extract(after, lens);
    var seen :| seen in after && lens.normalize(seen.text) != "";
    assert Visible(seen, lens) && Detection(lens.normalize(seen.text), seen.box) in a;
    forall e | e in a ensures exists i :: 0 <= i < |b| && e == Scrolled(b[i], dy) {
      var j :| 0 <= j < |after| && Visible(after[j], lens)
        && e == Detection(lens.normalize(after[j].text), after[j].box);
      assert after[j] in after;
      var k := ScrolledExtract(before, after[j], lens, dy);
      assert e == Scrolled(b[k], dy);
    }
    UniformItems(b, a, dy, least);
  }

  lemma ScrolledExtract(before: seq<Detection>, d: Detection, lens: Lens, dy: real) returns (k: nat)
    requires lens.bounds == None && lens.normalize(d.text) != ""
    requires exists i :: 0 <= i < |before| && d == Scrolled(before[i], dy)
    ensures k < |Extract(before, lens)|
    ensures Detection(lens.normalize(d.text), d.box) == Scrolled(Extract(before, lens)[k], dy)
  {
    ExtractMembers(before, lens);
    var b := Extract(before, lens);
    var i :| 0 <= i < |before| && d == Scrolled(before[i], dy);
    assert before[i] in before && Visible(before[i], lens);
    var from := Detection(lens.normalize(before[i].text), before[i].box);
    assert from in b;
    k :| 0 <= k < |b| && b[k] == from;
  }

  // ---- soundness of a TRUE verdict

  lemma {:induction false} GroupSound(items: seq<Detection>)
    ensures PoolFrom(Group(items), items)
  {
    if items != [] {
      var front, d := items[..|items| - 1], items[|items| - 1];
      GroupSound(front);
      var m := Group(front);
      forall t, b | t in Group(items) && b in Group(items)[t] ensures Detection(t, b) in items {
        if t in m && b in m[t] {
          assert Detection(t, b) in front;
        } else {
          assert Detection(t, b) == d;
        }
      }
    }
  }

  predicate Backs(s: Shift, before: seq<Detection>, after: seq<Detection>) {
    && Abs(s.dx) < 150.0
    && exists i, j :: 0 <= i < |before| && 0 <= j < |after|
         && before[i].text == after[j].text && s == ShiftOf(before[i].box, after[j].box)
  }

  predicate PoolFrom(pool: Pool, before: seq<Detection>) {
    forall t, b :: t in pool && b in pool[t] ==> Detection(t, b) in before
  }

  lemma {:induction false} MatchSound(items: seq<Detection>, k: nat, pool: Pool, before: seq<Detection>,
                                      after: seq<Detection>)
    requires k <= |items| && PoolFrom(pool, before) && forall d :: d in items ==> d in after
    ensures forall s :: s in Match(items, k, pool) ==> Backs(s, before, after)
    decreases |items| - k
  {
    if k < |items| {
      var d := items[k];
      if d.text in pool && Best(pool[d.text], d.box, 0, None).Some? {
        var found := Best(pool[d.text], d.box, 0, None).value;
        var rest := pool[d.text := Drop(pool[d.text], found)];
        MatchSound(items, k + 1, rest, before, after);
        var from := Detection(d.text, pool[d.text][found]);
        assert from in before && d in after;
        var i :| 0 <= i < |before| && before[i] == from;
        var j :| 0 <= j < |after| && after[j] == d;
      } else {
        MatchSound(items, k + 1, pool, before, after);
      }
    }
  }

  /** A TRUE verdict is backed: some label moved by at least the threshold without jumping
      columns, or the labels on a screen of at least three items changed. */
  lemma TrueIsBacked(before: seq<Detection>, after: seq<Detection>, least: real)
    requires Judge(before, after, least).verified == TRUE
    ensures || (exists s :: Backs(s, before, after) && Moved(s, least))
            || (Labels(before) != Labels(after) && |before| >= 3 && |after| >= 3)
  {
    var pool := Group(before);
    GroupSound(before);
    SortMembers(after);
    MatchSound(SortByLength(after), 0, pool, before, after);
  }
}
