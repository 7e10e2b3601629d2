/** The assembly of tool calls out of a stream of fragments. */
module ToolCalls {
  import opened Domain

  /** A member of a JSON object: missing, null or a string. */
  datatype Field = Absent | Null | Text(text: string)

  /** The function object of a fragment: missing, null or given. */
  datatype FunctionPart = NoFunction | NullFunction | Function(name: Field, arguments: Field)

  /** One entry of a delta's tool calls. */
  datatype Fragment = Fragment(index: int, id: Field, function_: FunctionPart)

  /** A missing function object counts as an empty one. */
  function NameOf(f: Fragment): Field { if f.function_.Function? then f.function_.name else Absent }

  function ArgumentsOf(f: Fragment): Field { if f.function_.Function? then f.function_.arguments else Absent }

  /** One line of the event stream: one that is passed over, the end marker, a delta, or a line with a null in place
      of its data object, of the first choice, of the delta, of its list of calls or of one of the calls. */
  datatype Line = Ignored | End | Delta(fragments: seq<Fragment>) | Broken

  /** What is buffered of one call; None is a null taken over from the first fragment. */
  datatype Entry = Entry(id: Option<string>, name: Option<string>, arguments: Option<string>)

  type Buffer = map<int, Entry>

  datatype Result<T> = Ok(value: T) | StreamFailed

  datatype Streamed = NoCalls | Calls(calls: seq<Entry>)

  // ---- specification

  function Taken(f: Field): Option<string> {
    match f
    case Absent => Some("")
    case Null => None
    case Text(s) => Some(s)
  }

  /** Appending to a null fails; an empty piece is not appended at all. */
  function Appended(b: Option<string>, f: Field): Result<Option<string>> {
    if !f.Text? || f.text == "" then Ok(b)
    else if b.None? then StreamFailed
    else Ok(Some(b.value + f.text))
  }

  function Extended(e: Entry, f: Fragment): Result<Entry> {
    var id, name, arguments := Appended(e.id, f.id), Appended(e.name, NameOf(f)), Appended(e.arguments, ArgumentsOf(f));
    if id.Ok? && name.Ok? && arguments.Ok? then Ok(Entry(id.value, name.value, arguments.value)) else StreamFailed
  }

  function FirstEntry(f: Fragment): Entry { Entry(Taken(f.id), Taken(NameOf(f)), Taken(ArgumentsOf(f))) }

  /** Looking into a null function object fails. */
  function Accept(b: Buffer, f: Fragment): Result<Buffer> {
    if f.function_.NullFunction? then StreamFailed
    else if f.index !in b then Ok(b[f.index := FirstEntry(f)])
    else
      var e := Extended(b[f.index], f);
      if e.Ok? then Ok(b[f.index := e.value]) else StreamFailed
  }

  function Collect(fragments: seq<Fragment>): Result<Buffer> {
    if fragments == [] then Ok(map[])
    else
      var b := Collect(fragments[..|fragments| - 1]);
      if b.Ok? then Accept(b.value, fragments[|fragments| - 1]) else StreamFailed
  }

  /** The fragments the stream delivers up to its end marker. */
  function Delivered(lines: seq<Line>): seq<Fragment> {
    if lines == [] || lines[0].End? then []
    else (if lines[0].Delta? then lines[0].fragments else []) + Delivered(lines[1..])
  }

  /** A broken line is read before the end marker. */
  predicate Torn(lines: seq<Line>) {
    lines != [] && !lines[0].End? && (lines[0].Broken? || Torn(lines[1..]))
  }

  /** What is buffered when the stream has been read; looking into a broken line fails. */
  function Received(lines: seq<Line>): Result<Buffer> {
    if Torn(lines) then StreamFailed else Collect(Delivered(lines))
  }

  predicate Ascending(s: seq<int>) { forall i, j :: 0 <= i < j < |s| ==> s[i] < s[j] }

  ghost predicate Among(s: seq<int>, i: int) { exists k :: 0 <= k < |s| && s[k] == i }

  /** The calls of `b`, by ascending index. */
  ghost predicate Lists(calls: seq<Entry>, indices: seq<int>, b: Buffer) {
    && Ascending(indices) && |calls| == |indices|
    && (forall i :: i in b ==> Among(indices, i))
    && forall k :: 0 <= k < |indices| ==> indices[k] in b && calls[k] == b[indices[k]]
  }

  // ---- the assembler

  method TakeFragment(b: Buffer, f: Fragment) returns (r: Result<Buffer>)
    ensures r == Accept(b, f)
  {
    if f.index !in b {
      if f.function_.NullFunction? { return StreamFailed; }
      return Ok(b[f.index := FirstEntry(f)]);
    }
    var e := b[f.index];
    if f.id.Text? && f.id.text != "" {
      if e.id.None? { return StreamFailed; }
      e := e.(id := Some(e.id.value + f.id.text));
    }
    if f.function_.NullFunction? { return StreamFailed; }
    var name, arguments := NameOf(f), ArgumentsOf(f);
    if name.Text? && name.text != "" {
      if e.name.None? { return StreamFailed; }
      e := e.(name := Some(e.name.value + name.text));
    }
    if arguments.Text? && arguments.text != "" {
      if e.arguments.None? { return StreamFailed; }
      e := e.(arguments := Some(e.arguments.value + arguments.text));
    }
    return Ok(b[f.index := e]);
  }

  lemma {:induction false} CollectStops(some: seq<Fragment>, rest: seq<Fragment>)
    requires Collect(some) == StreamFailed
    ensures Collect(some + rest) == StreamFailed
  {
    if rest == [] {
      assert some + rest == some;
    } else {
      var all := some + rest;
      assert all[..|all| - 1] == some + rest[..|rest| - 1];
      CollectStops(some, rest[..|rest| - 1]);
    }
  }

  lemma CollectNext(seen: seq<Fragment>, f: Fragment, b: Buffer)
    requires Collect(seen) == Ok(b)
    ensures Collect(seen + [f]) == Accept(b, f)
  {
    var next := seen + [f];
    assert next[..|next| - 1] == seen;
  }

  /** Takes the fragments of one delta; `seen` are those before it. */
  method TakeDelta(b: Buffer, fragments: seq<Fragment>, ghost seen: seq<Fragment>) returns (r: Result<Buffer>)
    requires Collect(seen) == Ok(b)
    ensures r == Collect(seen + fragments)
  {
    var now := b;
    assert seen + fragments[..0] == seen;
    for j := 0 to |fragments|
      invariant Collect(seen + fragments[..j]) == Ok(now)
    {
      var more := TakeFragment(now, fragments[j]);
      CollectNext(seen + fragments[..j], fragments[j], now);
      assert seen + fragments[..j] + [fragments[j]] == seen + fragments[..j + 1];
      if more.StreamFailed? {
        CollectStops(seen + fragments[..j + 1], fragments[j + 1..]);
        assert seen + fragments[..j + 1] + fragments[j + 1..] == seen + fragments;
        return StreamFailed;
      }
      now := more.value;
    }
    assert fragments[..|fragments|] == fragments;
    return Ok(now);
  }

  lemma DeliveredNext(lines: seq<Line>, k: nat, seen: seq<Fragment>)
    requires k < |lines|
    ensures Torn(lines[k..]) <==> !lines[k].End? && (lines[k].Broken? || Torn(lines[k + 1..]))
    ensures lines[k].End? ==> seen + Delivered(lines[k..]) == seen
    ensures lines[k].Ignored? ==> Delivered(lines[k..]) == Delivered(lines[k + 1..])
    ensures lines[k].Delta? ==> seen + Delivered(lines[k..]) == (seen + lines[k].fragments) + Delivered(lines[k + 1..])
  {
    assert lines[k..][0] == lines[k] && lines[k..][1..] == lines[k + 1..];
  }

  method FillBuffer(lines: seq<Line>) returns (r: Result<Buffer>)
    ensures r == Received(lines)
  {
    var b: Buffer := map[];
    ghost var seen: seq<Fragment> := [];
    ghost var all := Delivered(lines);
    assert lines[0..] == lines && [] + all == all;
    for k := 0 to |lines|
      invariant Collect(seen) == Ok(b)
      invariant seen + Delivered(lines[k..]) == all
      invariant Torn(lines[k..]) == Torn(lines)
    {
      DeliveredNext(lines, k, seen);
      match lines[k] {
        case Ignored =>
        case End => return Ok(b);
        case Broken => return StreamFailed;
        case Delta(fragments) =>
          var more := TakeDelta(b, fragments, seen);
          seen := seen + fragments;
          if more.StreamFailed? {
            CollectStops(seen, Delivered(lines[k + 1..]));
            return StreamFailed;
          }
          b := more.value;
      }
    }
    assert lines[|lines|..] == [] && seen + [] == seen;
    return Ok(b);
  }

  lemma {:induction false} HasLeast(s: set<int>, some: int) returns (least: int)
    requires some in s
    ensures least in s && forall j :: j in s ==> least <= j
    decreases |s|
  {
    var rest := s - {some};
    least := some;
    if exists x :: x in rest {
      var x :| x in rest;
      var y := HasLeast(rest, x);
      least := if y < some then y else some;
    }
    assert forall j :: j in s ==> j == some || j in rest;
  }

  method Sorted(keys: set<int>) returns (s: seq<int>)
    ensures Ascending(s)
    ensures forall i :: i in keys ==> Among(s, i)
    ensures forall k :: 0 <= k < |s| ==> s[k] in keys
  {
    s := [];
    var rest := keys;
    while exists i :: i in rest
      invariant rest <= keys && Ascending(s)
      invariant forall k :: 0 <= k < |s| ==> s[k] in keys
      invariant forall i :: i in keys ==> i in rest || Among(s, i)
      invariant forall k, j :: 0 <= k < |s| && j in rest ==> s[k] < j
      decreases |rest|
    {
      ghost var some :| some in rest;
      ghost var smallest := HasLeast(rest, some);
      var least :| least in rest && forall j :: j in rest ==> least <= j;
      ghost var was := s;
      s := s + [least];
      rest := rest - {least};
      forall i | i in keys && i !in rest ensures Among(s, i) {
        if i == least {
          assert s[|was|] == i;
        } else {
          var k :| 0 <= k < |was| && was[k] == i;
          assert s[k] == i;
        }
      }
    }
  }

  ghost predicate Listed(calls: seq<Entry>, b: Buffer) { exists indices :: Lists(calls, indices, b) }

  /** The calls reported when the stream ends. */
  method Assemble(lines: seq<Line>) returns (r: Result<Streamed>)
    ensures match Received(lines)
      case StreamFailed => r == StreamFailed
      case Ok(b) => if b == map[] then r == Ok(NoCalls) else r.Ok? && r.value.Calls? && Listed(r.value.calls, b)
  {
    var b := FillBuffer(lines);
    if b.StreamFailed? {
      return StreamFailed;
    }
    if b.value == map[] {
      return Ok(NoCalls);
    }
    var order := Sorted(b.value.Keys);
    var calls := [];
    for k := 0 to |order|
      invariant |calls| == k
      invariant forall i :: 0 <= i < k ==> order[i] in b.value && calls[i] == b.value[order[i]]
    {
      calls := calls + [b.value[order[k]]];
    }
    assert Lists(calls, order, b.value);
    return Ok(Calls(calls));
  }

  // ---- what the calls are, index by index

  /** The fragments of one call, in the order they came. */
  function Of(fragments: seq<Fragment>, index: int): seq<Fragment> {
    if fragments == [] then []
    else Of(fragments[..|fragments| - 1], index)
         + if fragments[|fragments| - 1].index == index then [fragments[|fragments| - 1]] else []
  }

  function Ids(fs: seq<Fragment>): seq<Field> { seq(|fs|, k requires 0 <= k < |fs| => fs[k].id) }

  function FieldNames(fs: seq<Fragment>): seq<Field> { seq(|fs|, k requires 0 <= k < |fs| => NameOf(fs[k])) }

  function FieldArguments(fs: seq<Fragment>): seq<Field> { seq(|fs|, k requires 0 <= k < |fs| => ArgumentsOf(fs[k])) }

  /** The texts of the pieces, one after another. */
  function Joined(pieces: seq<Field>): string {
    if pieces == [] then ""
    else
      var last := pieces[|pieces| - 1];
      Joined(pieces[..|pieces| - 1]) + if last.Text? then last.text else ""
  }

  /** The first piece is null and a later one has text. */
  predicate Jams(pieces: seq<Field>) {
    pieces != [] && pieces[0].Null? && exists k :: 0 < k < |pieces| && pieces[k].Text? && pieces[k].text != ""
  }

  /** What the pieces of one field come to when they do not jam. */
  function Whole(pieces: seq<Field>): Option<string>
    requires pieces != []
  {
    if pieces[0].Null? then None else Some(Joined(pieces))
  }

  predicate AnyJams(fs: seq<Fragment>) { Jams(Ids(fs)) || Jams(FieldNames(fs)) || Jams(FieldArguments(fs)) }

  /** The fragments of one index make the stream fail. */
  predicate Breaks(fs: seq<Fragment>) { AnyJams(fs) || exists k :: 0 <= k < |fs| && fs[k].function_.NullFunction? }

  /** The fragments of some index make the stream fail. */
  ghost predicate SomeBreaks(fragments: seq<Fragment>) { exists i :: Breaks(Of(fragments, i)) }

  function WholeCall(fs: seq<Fragment>): Entry
    requires fs != []
  {
    Entry(Whole(Ids(fs)), Whole(FieldNames(fs)), Whole(FieldArguments(fs)))
  }

  lemma FirstPiece(f: Field)
    ensures Taken(f) == Whole([f]) && !Jams([f])
  {
    assert [f][..0] == [];
    var text := if f.Text? then f.text else "";
    assert Joined([f]) == Joined([]) + text == text;
  }

  lemma NextPiece(pieces: seq<Field>, f: Field)
    requires pieces != [] && !Jams(pieces)
    ensures Jams(pieces + [f]) <==> Appended(Whole(pieces), f).StreamFailed?
    ensures !Jams(pieces + [f]) ==> Appended(Whole(pieces), f) == Ok(Whole(pieces + [f]))
  {
    var all := pieces + [f];
    assert all[..|all| - 1] == pieces && all[0] == pieces[0] && all[|pieces|] == f;
    assert forall k :: 0 <= k < |pieces| ==> all[k] == pieces[k];
    assert Joined(pieces) + "" == Joined(pieces);
  }

  lemma PiecesOfMore(fs: seq<Fragment>, f: Fragment)
    ensures Ids(fs + [f]) == Ids(fs) + [f.id]
    ensures FieldNames(fs + [f]) == FieldNames(fs) + [NameOf(f)]
    ensures FieldArguments(fs + [f]) == FieldArguments(fs) + [ArgumentsOf(f)]
  {
  }

  lemma JamStays(fs: seq<Fragment>, f: Fragment)
    requires AnyJams(fs)
    ensures AnyJams(fs + [f])
  {
    PiecesOfMore(fs, f);
    JamStaysIn(Ids(fs), f.id);
    JamStaysIn(FieldNames(fs), NameOf(f));
    JamStaysIn(FieldArguments(fs), ArgumentsOf(f));
  }

  lemma JamStaysIn(pieces: seq<Field>, f: Field)
    ensures Jams(pieces) ==> Jams(pieces + [f])
  {
    var all := pieces + [f];
    if Jams(pieces) {
      var k :| 0 < k < |pieces| && pieces[k].Text? && pieces[k].text != "";
      assert all[k] == pieces[k] && all[0] == pieces[0];
    }
  }

  lemma FirstFragment(f: Fragment)
    ensures !AnyJams([f]) && WholeCall([f]) == FirstEntry(f)
  {
    assert Ids([f]) == [f.id] && FieldNames([f]) == [NameOf(f)] && FieldArguments([f]) == [ArgumentsOf(f)];
    FirstPiece(f.id);
    FirstPiece(NameOf(f));
    FirstPiece(ArgumentsOf(f));
  }

  lemma NextFragment(fs: seq<Fragment>, f: Fragment)
    requires fs != [] && !AnyJams(fs)
    ensures AnyJams(fs + [f]) <==> Extended(WholeCall(fs), f).StreamFailed?
    ensures !AnyJams(fs + [f]) ==> Extended(WholeCall(fs), f) == Ok(WholeCall(fs + [f]))
  {
    PiecesOfMore(fs, f);
    NextPiece(Ids(fs), f.id);
    NextPiece(FieldNames(fs), NameOf(f));
    NextPiece(FieldArguments(fs), ArgumentsOf(f));
  }

  /** The buffer holds the whole call of every index that has fragments. */
  ghost predicate Holds(b: Buffer, fragments: seq<Fragment>) {
    && (forall i :: i in b <==> Of(fragments, i) != [])
    && (forall i :: i in b ==> b[i] == WholeCall(Of(fragments, i)))
    && forall i :: !Breaks(Of(fragments, i))
  }

  lemma BreaksOneMore(fs: seq<Fragment>, f: Fragment)
    ensures Breaks(fs) ==> Breaks(fs + [f])
    ensures f.function_.NullFunction? ==> Breaks(fs + [f])
    ensures !f.function_.NullFunction? && !Breaks(fs) ==> (Breaks(fs + [f]) <==> AnyJams(fs + [f]))
  {
    var all := fs + [f];
    assert all[|fs|] == f;
    assert forall k :: 0 <= k < |fs| ==> all[k] == fs[k];
    if AnyJams(fs) {
      JamStays(fs, f);
    }
  }

  lemma OneMore(b: Buffer, fragments: seq<Fragment>, f: Fragment)
    requires Holds(b, fragments)
    ensures var all := fragments + [f];
      if Accept(b, f).StreamFailed? then Breaks(Of(all, f.index)) else Holds(Accept(b, f).value, all)
  {
    var all, own := fragments + [f], Of(fragments, f.index);
    assert all[..|all| - 1] == fragments;
    assert forall i :: i != f.index ==> Of(all, i) == Of(fragments, i);
    assert Of(all, f.index) == own + [f];
    assert !Breaks(own);
    BreaksOneMore(own, f);
    if own == [] {
      assert own + [f] == [f];
      FirstFragment(f);
    } else {
      NextFragment(own, f);
    }
  }

  lemma {:induction false} CollectMeaning(fragments: seq<Fragment>)
    ensures match Collect(fragments)
      case Ok(b) => Holds(b, fragments)
      case StreamFailed => SomeBreaks(fragments)
  {
    if fragments != [] {
      var front, f := fragments[..|fragments| - 1], fragments[|fragments| - 1];
      assert fragments == front + [f];
      CollectMeaning(front);
      if Collect(front).Ok? {
        OneMore(Collect(front).value, front, f);
      } else {
        var i :| Breaks(Of(front, i));
        BreaksOneMore(Of(front, i), f);
        assert Of(fragments, i) == if i == f.index then Of(front, i) + [f] else Of(front, i);
        assert Breaks(Of(fragments, i));
      }
    }
  }

  lemma {:induction false} TornMeaning(lines: seq<Line>)
    ensures Torn(lines) <==> exists k :: BrokenAt(lines, k)
  {
    if lines != [] {
      var rest := lines[1..];
      TornMeaning(rest);
      assert forall j :: 0 < j < |lines| ==> lines[j] == rest[j - 1];
      if Torn(lines) {
        if lines[0].Broken? {
          assert BrokenAt(lines, 0);
        } else {
          var k :| BrokenAt(rest, k);
          assert BrokenAt(lines, k + 1);
        }
      } else {
        forall k ensures !BrokenAt(lines, k) {
          assert !lines[0].End? ==> !BrokenAt(rest, k - 1);
        }
      }
    }
  }

  /** Line `k` is broken, and no end marker comes before it. */
  ghost predicate BrokenAt(lines: seq<Line>, k: int) {
    0 <= k < |lines| && lines[k].Broken? && forall j :: 0 <= j < k ==> !lines[j].End?
  }

  /** The stream fails exactly when it delivers a broken line or a fragment with a null function
      object or when, for some index, a field that its first fragment gives as null gets text later.
      Otherwise there is one call for each index, by ascending index, and each field of it is the
      texts of that index's fragments in order, or null if the first one was. */
  lemma CallsArePerIndex(lines: seq<Line>, calls: seq<Entry>, indices: seq<int>)
    ensures Received(lines).StreamFailed? <==>
              (exists k :: BrokenAt(lines, k)) || SomeBreaks(Delivered(lines))
    ensures Received(lines).Ok? && Lists(calls, indices, Received(lines).value) ==>
      var fragments := Delivered(lines);
      && Ascending(indices) && |calls| == |indices|
      && (forall i :: Of(fragments, i) != [] ==> Among(indices, i))
      && forall k :: 0 <= k < |indices| ==>
        Of(fragments, indices[k]) != [] && calls[k] == WholeCall(Of(fragments, indices[k]))
  {
    var fragments := Delivered(lines);
    TornMeaning(lines);
    CollectMeaning(fragments);
  }

  /** Only the order of the fragments of each index matters, not how the indices interleave. */
  lemma InterleavingIsIrrelevant(a: seq<Fragment>, b: seq<Fragment>)
    requires forall i :: Of(a, i) == Of(b, i)
    ensures Collect(a) == Collect(b)
  {
    CollectMeaning(a);
    CollectMeaning(b);
    if Collect(a).Ok? && Collect(b).Ok? {
      SameBuffer(Collect(a).value, Collect(b).value, a, b);
    }
  }

  lemma SameBuffer(x: Buffer, y: Buffer, a: seq<Fragment>, b: seq<Fragment>)
    requires Holds(x, a) && Holds(y, b) && forall i :: Of(a, i) == Of(b, i)
    ensures x == y
  {
    assert forall i :: i in x.Keys <==> i in y.Keys;
    assert forall i :: i in x ==> x[i] == y[i];
  }

  /** The reported calls are determined by the buffer. */
  lemma ListIsUnique(b: Buffer, calls: seq<Entry>, indices: seq<int>, others: seq<Entry>, keys: seq<int>)
    requires Lists(calls, indices, b) && Lists(others, keys, b)
    ensures calls == others && indices == keys
  {
    SameAscending(indices, keys);
  }

  lemma {:induction false} SameAscending(s: seq<int>, t: seq<int>)
    requires Ascending(s) && Ascending(t)
    requires forall k :: 0 <= k < |s| ==> Among(t, s[k])
    requires forall k :: 0 <= k < |t| ==> Among(s, t[k])
    ensures s == t
  {
    SamePrefix(s, t, |s|);
    SamePrefix(t, s, |t|);
  }

  lemma {:induction false} SamePrefix(s: seq<int>, t: seq<int>, n: nat)
    requires Ascending(s) && Ascending(t) && n <= |s|
    requires forall k :: 0 <= k < |s| ==> Among(t, s[k])
    requires forall k :: 0 <= k < |t| ==> Among(s, t[k])
    ensures n <= |t| && forall k :: 0 <= k < n ==> s[k] == t[k]
  {
    if n > 0 {
      SamePrefix(s, t, n - 1);
      var j :| 0 <= j < |t| && t[j] == s[n - 1];
      assert j >= n - 1;
      var i :| 0 <= i < |s| && s[i] == t[n - 1];
      assert i >= n - 1;
    }
  }
}
