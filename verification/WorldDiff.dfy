/** The changes between two snapshots of the desktop, and patching a snapshot with them. */
module WorldDiff {
  import opened Domain

  datatype Rect = Rect(x: int, y: int, w: int, h: int)

  datatype Window = Window(handle: int, title: string, minimized: TriState, maximized: TriState, bounds: Option<Rect>)

  datatype App = App(name: string, running: TriState, responsive: TriState)

  datatype Snapshot = Snapshot(apps: seq<App>, windows: seq<Window>, foreground: Option<int>)

  datatype Change =
    | AppOpened(name: string, ran: Option<TriState>, runs: TriState)
    | AppUnresponsive(name: string)
    | AppClosed(name: string)
    | WindowOpened(handle: int, title: string)
    | TitleChanged(handle: int, was: string, title: string)
    | WindowMinimized(handle: int) | WindowRestored(handle: int) | WindowMaximized(handle: int)
    | WindowMoved(handle: int, x: int, y: int)
    | WindowResized(handle: int, w: int, h: int)
    | WindowClosed(handle: int, was: string)
    | ForegroundChanged(from: Option<int>, to: Option<int>)

  /** A dictionary built from a list: its keys in order of first appearance, and for each the
      last entry with that key. */
  function Handles(ws: seq<Window>): seq<int> {
    if ws == [] then []
    else
      var keys := Handles(ws[..|ws| - 1]);
      if ws[|ws| - 1].handle in keys then keys else keys + [ws[|ws| - 1].handle]
  }

  function ByHandle(ws: seq<Window>): map<int, Window> {
    if ws == [] then map[] else ByHandle(ws[..|ws| - 1])[ws[|ws| - 1].handle := ws[|ws| - 1]]
  }

  function Names(apps: seq<App>): seq<string> {
    if apps == [] then []
    else
      var keys := Names(apps[..|apps| - 1]);
      if apps[|apps| - 1].name in keys then keys else keys + [apps[|apps| - 1].name]
  }

  function ByName(apps: seq<App>): map<string, App> {
    if apps == [] then map[] else ByName(apps[..|apps| - 1])[apps[|apps| - 1].name := apps[|apps| - 1]]
  }

  function When<T>(c: bool, x: T): seq<T> { if c then [x] else [] }

  /** The changes of one application that runs now. */
  function AppDelta(prev: map<string, App>, now: App): seq<Change> {
    if now.name !in prev then [AppOpened(now.name, None, now.running)]
    else
      var was := prev[now.name];
      if was.running == FALSE && now.running == TRUE then [AppOpened(now.name, Some(FALSE), TRUE)]
      else When(was.responsive == TRUE && now.responsive == FALSE, AppUnresponsive(now.name))
  }

  function AppGone(was: App, curr: map<string, App>): seq<Change> {
    When((was.name !in curr || curr[was.name].running == FALSE) && was.running == TRUE, AppClosed(was.name))
  }

  function TitleDelta(was: Window, now: Window): seq<Change> {
    When(was.title != now.title, TitleChanged(now.handle, was.title, now.title))
  }

  function BoundsDelta(was: Window, now: Window): seq<Change> {
    if was.bounds.None? || now.bounds.None? then []
    else
      var a, b := was.bounds.value, now.bounds.value;
      When(a.x != b.x || a.y != b.y, WindowMoved(now.handle, b.x, b.y))
      + When(a.w != b.w || a.h != b.h, WindowResized(now.handle, b.w, b.h))
  }

  function StateDelta(was: Window, now: Window): seq<Change> {
    (if was.minimized == FALSE && now.minimized == TRUE then [WindowMinimized(now.handle)]
     else When(was.minimized == TRUE && now.minimized == FALSE, WindowRestored(now.handle)))
    + When(was.maximized == FALSE && now.maximized == TRUE, WindowMaximized(now.handle))
  }

  /** The changes of one window that exists now. */
  function WindowDelta(prev: map<int, Window>, now: Window): seq<Change> {
    if now.handle !in prev then [WindowOpened(now.handle, now.title)]
    else
      var was := prev[now.handle];
      TitleDelta(was, now) + StateDelta(was, now) + BoundsDelta(was, now)
  }

  function WindowGone(was: Window, curr: map<int, Window>): seq<Change> {
    When(was.handle !in curr, WindowClosed(was.handle, was.title))
  }

  /** Zero counts as no window. */
  function Shown(handle: Option<int>): Option<int> { if handle == Some(0) then None else handle }

  function ForegroundDelta(was: Option<int>, now: Option<int>): seq<Change> {
    When(was != now, ForegroundChanged(Shown(was), Shown(now)))
  }

  // ---- the whole diff

  predicate Within<T(==), V>(keys: seq<T>, m: map<T, V>) { forall k :: 0 <= k < |keys| ==> keys[k] in m }

  function AppsDelta(prev: map<string, App>, curr: map<string, App>, names: seq<string>): seq<Change>
    requires Within(names, curr)
  {
    if names == [] then []
    else AppsDelta(prev, curr, names[..|names| - 1]) + AppDelta(prev, curr[names[|names| - 1]])
  }

  function AppsGone(prev: map<string, App>, curr: map<string, App>, names: seq<string>): seq<Change>
    requires Within(names, prev)
  {
    if names == [] then []
    else AppsGone(prev, curr, names[..|names| - 1]) + AppGone(prev[names[|names| - 1]], curr)
  }

  function WindowsDelta(prev: map<int, Window>, curr: map<int, Window>, handles: seq<int>): seq<Change>
    requires Within(handles, curr)
  {
    if handles == [] then []
    else WindowsDelta(prev, curr, handles[..|handles| - 1]) + WindowDelta(prev, curr[handles[|handles| - 1]])
  }

  function WindowsGone(prev: map<int, Window>, curr: map<int, Window>, handles: seq<int>): seq<Change>
    requires Within(handles, prev)
  {
    if handles == [] then []
    else WindowsGone(prev, curr, handles[..|handles| - 1]) + WindowGone(prev[handles[|handles| - 1]], curr)
  }

  lemma {:induction false} HandlesMeaning(ws: seq<Window>)
    ensures forall h :: h in Handles(ws) <==> h in ByHandle(ws)
    ensures Within(Handles(ws), ByHandle(ws))
    ensures Keyed(ByHandle(ws)) && Distinct(Handles(ws))
  {
    if ws != [] {
      HandlesMeaning(ws[..|ws| - 1]);
    }
  }

  lemma {:induction false} NamesMeaning(apps: seq<App>)
    ensures forall n :: n in Names(apps) <==> n in ByName(apps)
    ensures Within(Names(apps), ByName(apps))
    ensures forall n :: n in ByName(apps) ==> ByName(apps)[n].name == n
  {
    if apps != [] {
      NamesMeaning(apps[..|apps| - 1]);
    }
  }

  function AppChanges(prev: seq<App>, curr: seq<App>): seq<Change> {
    NamesMeaning(prev);
    NamesMeaning(curr);
    AppsDelta(ByName(prev), ByName(curr), Names(curr)) + AppsGone(ByName(prev), ByName(curr), Names(prev))
  }

  function WindowChanges(prev: seq<Window>, curr: seq<Window>): seq<Change> {
    HandlesMeaning(prev);
    HandlesMeaning(curr);
    WindowsDelta(ByHandle(prev), ByHandle(curr), Handles(curr))
      + WindowsGone(ByHandle(prev), ByHandle(curr), Handles(prev))
  }

  function Diff(prev: Snapshot, curr: Snapshot): seq<Change> {
    AppChanges(prev.apps, curr.apps) + WindowChanges(prev.windows, curr.windows)
    + ForegroundDelta(prev.foreground, curr.foreground)
  }

  method ComputeDiff(previous: Snapshot, current: Snapshot) returns (changes: seq<Change>)
    ensures changes == Diff(previous, current)
  {
    changes := AddApps(previous.apps, current.apps);
    var windows := AddWindows(previous.windows, current.windows);
    changes := changes + windows;
    if previous.foreground != current.foreground {
      changes := changes + [ForegroundChanged(Shown(previous.foreground), Shown(current.foreground))];
    }
  }

  method AddApps(previous: seq<App>, current: seq<App>) returns (changes: seq<Change>)
    ensures changes == AppChanges(previous, current)
  {
    NamesMeaning(previous);
    NamesMeaning(current);
    var prev, curr := ByName(previous), ByName(current);
    changes := AddPresent(prev, curr, Names(current));
    var stopped := AddStopped(prev, curr, Names(previous));
    changes := changes + stopped;
  }

  method AddPresent(prev: map<string, App>, curr: map<string, App>, names: seq<string>) returns (changes: seq<Change>)
    requires Within(names, curr)
    ensures changes == AppsDelta(prev, curr, names)
  {
    changes := [];
    for k := 0 to |names|
      invariant changes == AppsDelta(prev, curr, names[..k])
    {
      assert names[..k + 1][..k] == names[..k];
      changes := changes + AppDelta(prev, curr[names[k]]);
    }
    assert names[..|names|] == names;
  }

  method AddStopped(prev: map<string, App>, curr: map<string, App>, names: seq<string>) returns (changes: seq<Change>)
    requires Within(names, prev)
    ensures changes == AppsGone(prev, curr, names)
  {
    changes := [];
    for k := 0 to |names|
      invariant changes == AppsGone(prev, curr, names[..k])
    {
      assert names[..k + 1][..k] == names[..k];
      var app := prev[names[k]];
      if (app.name !in curr || curr[app.name].running == FALSE) && app.running == TRUE {
        changes := changes + [AppClosed(app.name)];
      }
    }
    assert names[..|names|] == names;
  }

  method AddWindows(previous: seq<Window>, current: seq<Window>) returns (changes: seq<Change>)
    ensures changes == WindowChanges(previous, current)
  {
    HandlesMeaning(previous);
    HandlesMeaning(current);
    var prev, curr := ByHandle(previous), ByHandle(current);
    changes := AddChanged(prev, curr, Handles(current));
    var closed := AddClosed(prev, curr, Handles(previous));
    changes := changes + closed;
  }

  method AddChanged(prev: map<int, Window>, curr: map<int, Window>, handles: seq<int>) returns (changes: seq<Change>)
    requires Within(handles, curr)
    ensures changes == WindowsDelta(prev, curr, handles)
  {
    changes := [];
    for k := 0 to |handles|
      invariant changes == WindowsDelta(prev, curr, handles[..k])
    {
      assert handles[..k + 1][..k] == handles[..k];
      changes := changes + WindowDelta(prev, curr[handles[k]]);
    }
    assert handles[..|handles|] == handles;
  }

  method AddClosed(prev: map<int, Window>, curr: map<int, Window>, handles: seq<int>) returns (changes: seq<Change>)
    requires Keyed(prev) && Within(handles, prev)
    ensures changes == WindowsGone(prev, curr, handles)
  {
    changes := [];
    for k := 0 to |handles|
      invariant changes == WindowsGone(prev, curr, handles[..k])
    {
      var h := handles[k];
      assert handles[..k + 1][..k] == handles[..k];
      assert h in prev && prev[h].handle == h;
      if h !in curr {
        changes := changes + [WindowClosed(h, prev[h].title)];
      }
    }
    assert handles[..|handles|] == handles;
  }

  // ---- patching

  /** A picture of the desktop's windows, keyed by handle. */
  type Desk = map<int, Window>

  /** What a reader of one change does to the picture. A window first heard of has only a title. */
  function PatchOne(d: Desk, c: Change): Desk {
    match c
    case WindowOpened(h, title) => d[h := Window(h, title, UNKNOWN, UNKNOWN, None)]
    case WindowClosed(h, _) => d - {h}
    case TitleChanged(h, _, title) => if h in d then d[h := d[h].(title := title)] else d
    case WindowMinimized(h) => if h in d then d[h := d[h].(minimized := TRUE)] else d
    case WindowRestored(h) => if h in d then d[h := d[h].(minimized := FALSE)] else d
    case WindowMaximized(h) => if h in d then d[h := d[h].(maximized := TRUE)] else d
    case WindowMoved(h, x, y) => if h in d then d[h := d[h].(bounds := Moved(d[h].bounds, x, y))] else d
    case WindowResized(h, w, e) => if h in d then d[h := d[h].(bounds := Resized(d[h].bounds, w, e))] else d
    case _ => d
  }

  function Moved(b: Option<Rect>, x: int, y: int): Option<Rect> {
    if b.None? then b else Some(b.value.(x := x, y := y))
  }

  function Resized(b: Option<Rect>, w: int, h: int): Option<Rect> {
    if b.None? then b else Some(b.value.(w := w, h := h))
  }

  function Patch(d: Desk, changes: seq<Change>): Desk {
    if changes == [] then d else PatchOne(Patch(d, changes[..|changes| - 1]), changes[|changes| - 1])
  }

  lemma {:induction false} PatchConcat(d: Desk, a: seq<Change>, b: seq<Change>)
    ensures Patch(d, a + b) == Patch(Patch(d, a), b)
  {
    if b == [] {
      assert a + b == a;
    } else {
      assert (a + b)[..|a + b| - 1] == a + b[..|b| - 1];
      PatchConcat(d, a, b[..|b| - 1]);
    }
  }

  lemma PatchWhen(d: Desk, c: bool, x: Change)
    ensures Patch(d, When(c, x)) == if c then PatchOne(d, x) else d
  {
    assert Patch(d, []) == d;
    assert [x][..0] == [];
  }

  predicate Silent(c: Change) {
    c.AppOpened? || c.AppUnresponsive? || c.AppClosed? || c.ForegroundChanged?
  }

  predicate AllSilent(cs: seq<Change>) { forall k :: 0 <= k < |cs| ==> Silent(cs[k]) }

  lemma {:induction false} SilentPatch(d: Desk, changes: seq<Change>)
    requires AllSilent(changes)
    ensures Patch(d, changes) == d
  {
    if changes != [] {
      SilentPatch(d, changes[..|changes| - 1]);
    }
  }

  lemma {:induction false} AppsAreSilent(prev: map<string, App>, curr: map<string, App>, now: seq<string>)
    requires Within(now, curr)
    ensures AllSilent(AppsDelta(prev, curr, now))
  {
    if now != [] {
      AppsAreSilent(prev, curr, now[..|now| - 1]);
    }
  }

  lemma {:induction false} GoneAppsAreSilent(prev: map<string, App>, curr: map<string, App>, was: seq<string>)
    requires Within(was, prev)
    ensures AllSilent(AppsGone(prev, curr, was))
  {
    if was != [] {
      GoneAppsAreSilent(prev, curr, was[..|was| - 1]);
    }
  }

  lemma AppChangesAreSilent(prev: seq<App>, curr: seq<App>)
    ensures AllSilent(AppChanges(prev, curr))
  {
    NamesMeaning(prev);
    NamesMeaning(curr);
    AppsAreSilent(ByName(prev), ByName(curr), Names(curr));
    GoneAppsAreSilent(ByName(prev), ByName(curr), Names(prev));
  }

  /** Which minimised and maximised states a reader ends with. */
  function SeenMinimized(kept: TriState, was: TriState, now: TriState): TriState {
    if was == FALSE && now == TRUE then TRUE else if was == TRUE && now == FALSE then FALSE else kept
  }

  function SeenMaximized(kept: TriState, was: TriState, now: TriState): TriState {
    if was == FALSE && now == TRUE then TRUE else kept
  }

  function SeenBounds(kept: Option<Rect>, was: Option<Rect>, now: Option<Rect>): Option<Rect> {
    if was.None? || now.None? then kept
    else
      var a, b := was.value, now.value;
      var moved := if a.x != b.x || a.y != b.y then Moved(kept, b.x, b.y) else kept;
      if a.w != b.w || a.h != b.h then Resized(moved, b.w, b.h) else moved
  }

  /** The picture of one window after its changes, from the picture `kept` before them. */
  function Seen(kept: Window, was: Window, now: Window): Window {
    kept.(title := if was.title != now.title then now.title else kept.title,
          minimized := SeenMinimized(kept.minimized, was.minimized, now.minimized),
          maximized := SeenMaximized(kept.maximized, was.maximized, now.maximized),
          bounds := SeenBounds(kept.bounds, was.bounds, now.bounds))
  }

  lemma BoundsPatch(d: Desk, was: Window, now: Window)
    requires now.handle in d
    ensures Patch(d, BoundsDelta(was, now))
         == d[now.handle := d[now.handle].(bounds := SeenBounds(d[now.handle].bounds, was.bounds, now.bounds))]
  {
    if was.bounds.Some? && now.bounds.Some? {
      var a, b := was.bounds.value, now.bounds.value;
      var moved, resized := WindowMoved(now.handle, b.x, b.y), WindowResized(now.handle, b.w, b.h);
      PatchConcat(d, When(a.x != b.x || a.y != b.y, moved), When(a.w != b.w || a.h != b.h, resized));
      PatchWhen(d, a.x != b.x || a.y != b.y, moved);
      PatchWhen(Patch(d, When(a.x != b.x || a.y != b.y, moved)), a.w != b.w || a.h != b.h, resized);
    }
  }

  lemma StatePatch(d: Desk, was: Window, now: Window)
    requires now.handle in d
    ensures Patch(d, StateDelta(was, now))
         == var seen := d[now.handle];
            d[now.handle := seen.(minimized := SeenMinimized(seen.minimized, was.minimized, now.minimized),
                                  maximized := SeenMaximized(seen.maximized, was.maximized, now.maximized))]
  {
    var down, up := WindowMinimized(now.handle), WindowRestored(now.handle);
    var first := if was.minimized == FALSE && now.minimized == TRUE then [down]
                 else When(was.minimized == TRUE && now.minimized == FALSE, up);
    var grown := was.maximized == FALSE && now.maximized == TRUE;
    PatchConcat(d, first, When(grown, WindowMaximized(now.handle)));
    PatchWhen(d, true, down);
    PatchWhen(d, was.minimized == TRUE && now.minimized == FALSE, up);
    PatchWhen(Patch(d, first), grown, WindowMaximized(now.handle));
  }

  lemma TitlePatch(d: Desk, was: Window, now: Window)
    requires now.handle in d
    ensures Patch(d, TitleDelta(was, now))
         == d[now.handle := d[now.handle].(title := if was.title != now.title then now.title else d[now.handle].title)]
  {
    PatchWhen(d, was.title != now.title, TitleChanged(now.handle, was.title, now.title));
  }

  lemma KeptPatch(d: Desk, was: Window, now: Window)
    requires now.handle in d
    ensures Patch(d, TitleDelta(was, now) + StateDelta(was, now) + BoundsDelta(was, now))
         == d[now.handle := Seen(d[now.handle], was, now)]
  {
    var t, s, b := TitleDelta(was, now), StateDelta(was, now), BoundsDelta(was, now);
    PatchConcat(d, t + s, b);
    PatchConcat(d, t, s);
    TitlePatch(d, was, now);
    var d1 := Patch(d, t);
    StatePatch(d1, was, now);
    var d2 := Patch(d1, s);
    BoundsPatch(d2, was, now);
  }

  lemma WindowPatch(d: Desk, prev: Desk, now: Window)
    requires now.handle in prev ==> now.handle in d
    ensures Patch(d, WindowDelta(prev, now))
         == if now.handle in prev then d[now.handle := Seen(d[now.handle], prev[now.handle], now)]
            else d[now.handle := Window(now.handle, now.title, UNKNOWN, UNKNOWN, None)]
  {
    if now.handle in prev {
      KeptPatch(d, prev[now.handle], now);
    } else {
      PatchWhen(d, true, WindowOpened(now.handle, now.title));
    }
  }

  predicate Keyed(m: Desk) { forall h :: h in m ==> m[h].handle == h }

  predicate Distinct<T(==)>(s: seq<T>) { forall i, j :: 0 <= i < j < |s| ==> s[i] != s[j] }

  /** The picture after the changes of the windows in `handles`, window by window. */
  lemma {:induction false} WindowsPatch(d: Desk, prev: Desk, curr: Desk, handles: seq<int>)
    requires Keyed(curr) && Distinct(handles) && d.Keys == prev.Keys && Within(handles, curr)
    ensures var r := Patch(d, WindowsDelta(prev, curr, handles));
      && (forall h :: h in r <==> h in d || h in handles)
      && forall h :: h in r ==> r[h] == if h in handles then Pictured(d, prev, curr[h]) else d[h]
  {
    if handles != [] {
      var front, last := handles[..|handles| - 1], handles[|handles| - 1];
      assert handles == front + [last];
      assert last in curr;
      WindowsPatch(d, prev, curr, front);
      var r := Patch(d, WindowsDelta(prev, curr, front));
      PatchConcat(d, WindowsDelta(prev, curr, front), WindowDelta(prev, curr[last]));
      assert last !in front;
      WindowPatch(r, prev, curr[last]);
    }
  }

  lemma GoneOne(d: Desk, was: Window, curr: Desk)
    ensures Patch(d, WindowGone(was, curr)) == if was.handle in curr then d else d - {was.handle}
  {
    PatchWhen(d, was.handle !in curr, WindowClosed(was.handle, was.title));
  }

  lemma {:induction false} GonePatch(d: Desk, prev: Desk, curr: Desk, handles: seq<int>)
    requires Keyed(prev) && Within(handles, prev)
    ensures var r := Patch(d, WindowsGone(prev, curr, handles));
      && (forall h :: h in r <==> h in d && (h in curr || h !in handles))
      && forall h :: h in r ==> r[h] == d[h]
  {
    if handles != [] {
      var front, last := handles[..|handles| - 1], handles[|handles| - 1];
      assert handles == front + [last];
      assert last in prev && prev[last].handle == last;
      GonePatch(d, prev, curr, front);
      PatchConcat(d, WindowsGone(prev, curr, front), WindowGone(prev[last], curr));
      GoneOne(Patch(d, WindowsGone(prev, curr, front)), prev[last], curr);
    }
  }

  /** A reader's picture of one window, from the picture `d` of the earlier snapshot. */
  function Pictured(d: Desk, prev: Desk, now: Window): Window
    requires d.Keys == prev.Keys
  {
    if now.handle in prev then Seen(d[now.handle], prev[now.handle], now)
    else Window(now.handle, now.title, UNKNOWN, UNKNOWN, None)
  }

  lemma WindowChangesPatch(d: Desk, prev: seq<Window>, curr: seq<Window>)
    requires d.Keys == ByHandle(prev).Keys
    ensures var r := Patch(d, WindowChanges(prev, curr));
      r.Keys == ByHandle(curr).Keys && forall h :: h in r ==> r[h] == Pictured(d, ByHandle(prev), ByHandle(curr)[h])
  {
    HandlesMeaning(prev);
    HandlesMeaning(curr);
    var pw, cw := ByHandle(prev), ByHandle(curr);
    PatchConcat(d, WindowsDelta(pw, cw, Handles(curr)), WindowsGone(pw, cw, Handles(prev)));
    WindowsPatch(d, pw, cw, Handles(curr));
    GonePatch(Patch(d, WindowsDelta(pw, cw, Handles(curr))), pw, cw, Handles(prev));
    var r := Patch(d, WindowChanges(prev, curr));
    forall h ensures h in r.Keys <==> h in cw.Keys {
      assert h in Handles(prev) <==> h in d;
      assert h in Handles(curr) <==> h in cw;
    }
  }

  lemma OnlyWindowsPatch(d: Desk, a: seq<Change>, w: seq<Change>, f: seq<Change>)
    requires forall e :: Patch(e, a) == e && Patch(e, f) == e
    ensures Patch(d, a + w + f) == Patch(d, w)
  {
    PatchConcat(d, a + w, f);
    PatchConcat(d, a, w);
  }

  lemma DiffPatches(d: Desk, prev: Snapshot, curr: Snapshot)
    ensures Patch(d, Diff(prev, curr)) == Patch(d, WindowChanges(prev.windows, curr.windows))
  {
    var a, f := AppChanges(prev.apps, curr.apps), ForegroundDelta(prev.foreground, curr.foreground);
    AppChangesAreSilent(prev.apps, curr.apps);
    forall e ensures Patch(e, a) == e && Patch(e, f) == e {
      SilentPatch(e, a);
      SilentPatch(e, f);
    }
    OnlyWindowsPatch(d, a, WindowChanges(prev.windows, curr.windows), f);
  }

  /** The picture `d` of `prev`, patched with the difference, shows exactly the windows of
      `curr`, each as its own changes leave it. */
  lemma PatchedDesk(d: Desk, prev: Snapshot, curr: Snapshot)
    requires d.Keys == ByHandle(prev.windows).Keys
    ensures var r := Patch(d, Diff(prev, curr));
      var pw, cw := ByHandle(prev.windows), ByHandle(curr.windows);
      r.Keys == cw.Keys && forall h :: h in r ==> r[h] == Pictured(d, pw, cw[h])
  {
    DiffPatches(d, prev, curr);
    WindowChangesPatch(d, prev.windows, curr.windows);
  }

  lemma SeenFromWas(was: Window, now: Window)
    ensures Faithful(Seen(was, was, now), was, now)
  {
    assert Seen(was, was, now).bounds == SeenBounds(was.bounds, was.bounds, now.bounds);
  }

  /** How far the picture of a window that both snapshots have is the current one. The title
      always is; the place and size exactly when both or neither snapshot has them; the minimised
      state exactly when it did not pass to or from unknown; the maximised state exactly when it
      stayed the same or went from no to yes, for leaving it is never reported. */
  predicate Faithful(pictured: Window, was: Window, now: Window) {
    && pictured.title == now.title
    && (pictured.bounds == now.bounds <==> (was.bounds.Some? <==> now.bounds.Some?))
    && (pictured.minimized == now.minimized <==>
        (was.minimized == now.minimized || (was.minimized != UNKNOWN && now.minimized != UNKNOWN)))
    && (pictured.maximized == now.maximized <==>
        (was.maximized == now.maximized || (was.maximized == FALSE && now.maximized == TRUE)))
  }

  /** Patching a snapshot with the difference to the next gives exactly the current handles and
      titles, and of each window that stayed all that the changes can tell. */
  lemma PatchRoundTrip(prev: Snapshot, curr: Snapshot)
    ensures var r := Patch(ByHandle(prev.windows), Diff(prev, curr));
      var pw, cw := ByHandle(prev.windows), ByHandle(curr.windows);
      r.Keys == cw.Keys
      && (forall h :: h in r ==> r[h].title == cw[h].title)
      && forall h :: h in r && h in pw ==> Faithful(r[h], pw[h], cw[h])
  {
    var pw, cw := ByHandle(prev.windows), ByHandle(curr.windows);
    PatchedDesk(pw, prev, curr);
    HandlesMeaning(curr.windows);
    forall h | h in cw && h in pw { SeenFromWas(pw[h], cw[h]); }
  }

  /** All the differences along a chain of snapshots, applied in order. */
  function PatchChain(d: Desk, chain: seq<Snapshot>): Desk
    requires chain != []
  {
    if |chain| == 1 then d
    else Patch(PatchChain(d, chain[..|chain| - 1]), Diff(chain[|chain| - 2], chain[|chain| - 1]))
  }

  predicate Placed(s: Snapshot, h: int) {
    h in ByHandle(s.windows) && ByHandle(s.windows)[h].bounds.Some?
  }

  predicate AlwaysPlaced(chain: seq<Snapshot>, h: int) { forall k :: 0 <= k < |chain| ==> Placed(chain[k], h) }

  lemma AlwaysPlacedFront(chain: seq<Snapshot>, h: int)
    requires chain != [] && AlwaysPlaced(chain, h)
    ensures AlwaysPlaced(chain[..|chain| - 1], h)
  {
    var front := chain[..|chain| - 1];
    forall k | 0 <= k < |front| ensures Placed(front[k], h) {
      assert Placed(chain[k], h);
    }
  }

  predicate SameTitles(d: Desk, ws: Desk) { d.Keys == ws.Keys && forall h :: h in d ==> d[h].title == ws[h].title }

  lemma TitlesStep(d: Desk, was: Snapshot, now: Snapshot)
    requires SameTitles(d, ByHandle(was.windows))
    ensures SameTitles(Patch(d, Diff(was, now)), ByHandle(now.windows))
  {
    PatchedDesk(d, was, now);
    HandlesMeaning(now.windows);
  }

  lemma PlaceStep(d: Desk, was: Snapshot, now: Snapshot, h: int)
    requires d.Keys == ByHandle(was.windows).Keys
    requires Placed(was, h) && Placed(now, h) && d[h].bounds == ByHandle(was.windows)[h].bounds
    ensures h in Patch(d, Diff(was, now)) && Patch(d, Diff(was, now))[h].bounds == ByHandle(now.windows)[h].bounds
  {
    PatchedDesk(d, was, now);
    HandlesMeaning(now.windows);
    var kept, w, n := d[h], ByHandle(was.windows)[h], ByHandle(now.windows)[h];
    assert Seen(kept, w, n).bounds == SeenBounds(w.bounds, w.bounds, n.bounds);
  }

  /** Composed along any chain, the differences carry the first snapshot's picture to the last
      one's handles and titles, and to the last place and size of every window that had them
      throughout. */
  lemma {:induction false} ChainRoundTrip(chain: seq<Snapshot>)
    requires chain != []
    ensures var r := PatchChain(ByHandle(chain[0].windows), chain);
      var last := ByHandle(chain[|chain| - 1].windows);
      && SameTitles(r, last)
      && forall h :: h in r && AlwaysPlaced(chain, h) ==> r[h].bounds == last[h].bounds
  {
    var d := ByHandle(chain[0].windows);
    if |chain| > 1 {
      var front := chain[..|chain| - 1];
      ChainRoundTrip(front);
      var r := PatchChain(d, front);
      var was, now := chain[|chain| - 2], chain[|chain| - 1];
      assert front[|front| - 1] == was;
      TitlesStep(r, was, now);
      forall h | AlwaysPlaced(chain, h) ensures h in r
        && Patch(r, Diff(was, now))[h].bounds == ByHandle(now.windows)[h].bounds {
        AlwaysPlacedFront(chain, h);
        assert Placed(chain[|chain| - 2], h) && Placed(chain[|chain| - 1], h);
        PlaceStep(r, was, now, h);
      }
    }
  }

  lemma {:induction false} SameAppsSayNothing(m: map<string, App>, names: seq<string>)
    requires Within(names, m)
    requires forall n :: n in m ==> m[n].name == n
    ensures AppsDelta(m, m, names) == [] && AppsGone(m, m, names) == []
  {
    if names != [] {
      SameAppsSayNothing(m, names[..|names| - 1]);
    }
  }

  lemma {:induction false} SameWindowsSayNothing(m: Desk, handles: seq<int>)
    requires Keyed(m) && Within(handles, m)
    ensures WindowsDelta(m, m, handles) == [] && WindowsGone(m, m, handles) == []
  {
    if handles != [] {
      SameWindowsSayNothing(m, handles[..|handles| - 1]);
      var last := handles[|handles| - 1];
      assert last in m;
      var now := m[last];
      assert StateDelta(now, now) == [] && BoundsDelta(now, now) == [];
    }
  }

  lemma SelfDiffIsEmpty(s: Snapshot)
    ensures Diff(s, s) == []
  {
    HandlesMeaning(s.windows);
    NamesMeaning(s.apps);
    SameAppsSayNothing(ByName(s.apps), Names(s.apps));
    SameWindowsSayNothing(ByHandle(s.windows), Handles(s.windows));
  }

  // ---- what is reported, exactly

  /** The last entry of the list for this window, and none after it. */
  predicate LastWindow(ws: seq<Window>, w: Window, k: nat) {
    k < |ws| && ws[k] == w && forall j :: k < j < |ws| ==> ws[j].handle != w.handle
  }

  ghost predicate Stands(ws: seq<Window>, w: Window) { exists k: nat :: LastWindow(ws, w, k) }

  ghost predicate Gone(ws: seq<Window>, handle: int) { forall k :: 0 <= k < |ws| ==> ws[k].handle != handle }

  lemma {:induction false} ByHandleExactly(ws: seq<Window>, w: Window)
    ensures (w.handle in ByHandle(ws) && ByHandle(ws)[w.handle] == w) <==> Stands(ws, w)
    ensures w.handle !in ByHandle(ws) <==> Gone(ws, w.handle)
  {
    if ws != [] {
      var n := |ws| - 1;
      var front, last := ws[..n], ws[n];
      ByHandleExactly(front, w);
      if last.handle == w.handle {
        if last == w {
          assert LastWindow(ws, w, n);
        }
        if k: nat :| LastWindow(ws, w, k) {
          assert k == n;
        }
      } else {
        if k: nat :| LastWindow(front, w, k) {
          assert LastWindow(ws, w, k);
        }
        if k: nat :| LastWindow(ws, w, k) {
          assert k < n && LastWindow(front, w, k);
        }
        if Gone(front, w.handle) {
          assert forall k :: 0 <= k < |ws| ==> ws[k].handle != w.handle;
        }
        if Gone(ws, w.handle) {
          assert forall k :: 0 <= k < |front| ==> front[k] == ws[k];
        }
      }
    }
  }

  predicate LastApp(apps: seq<App>, a: App, k: nat) {
    k < |apps| && apps[k] == a && forall j :: k < j < |apps| ==> apps[j].name != a.name
  }

  ghost predicate Listed(apps: seq<App>, a: App) { exists k: nat :: LastApp(apps, a, k) }

  ghost predicate Unlisted(apps: seq<App>, name: string) { forall k :: 0 <= k < |apps| ==> apps[k].name != name }

  lemma {:induction false} ByNameExactly(apps: seq<App>, a: App)
    ensures (a.name in ByName(apps) && ByName(apps)[a.name] == a) <==> Listed(apps, a)
    ensures a.name !in ByName(apps) <==> Unlisted(apps, a.name)
  {
    if apps != [] {
      var n := |apps| - 1;
      var front, last := apps[..n], apps[n];
      ByNameExactly(front, a);
      if last.name == a.name {
        if last == a {
          assert LastApp(apps, a, n);
        }
        if k: nat :| LastApp(apps, a, k) {
          assert k == n;
        }
      } else {
        if k: nat :| LastApp(front, a, k) {
          assert LastApp(apps, a, k);
        }
        if k: nat :| LastApp(apps, a, k) {
          assert k < n && LastApp(front, a, k);
        }
        if Unlisted(front, a.name) {
          assert forall k :: 0 <= k < |apps| ==> apps[k].name != a.name;
        }
        if Unlisted(apps, a.name) {
          assert forall k :: 0 <= k < |front| ==> front[k] == apps[k];
        }
      }
    }
  }

  /** What happened to one window. */
  predicate Happened(was: Window, now: Window, c: Change) {
    match c
    case TitleChanged(h, old_, new_) => h == now.handle && old_ == was.title && new_ == now.title && old_ != new_
    case WindowMinimized(h) => h == now.handle && was.minimized == FALSE && now.minimized == TRUE
    case WindowRestored(h) => h == now.handle && was.minimized == TRUE && now.minimized == FALSE
    case WindowMaximized(h) => h == now.handle && was.maximized == FALSE && now.maximized == TRUE
    case WindowMoved(h, x, y) =>
      && h == now.handle && was.bounds.Some? && now.bounds.Some? && x == now.bounds.value.x && y == now.bounds.value.y
      && (was.bounds.value.x != x || was.bounds.value.y != y)
    case WindowResized(h, w, e) =>
      && h == now.handle && was.bounds.Some? && now.bounds.Some? && w == now.bounds.value.w && e == now.bounds.value.h
      && (was.bounds.value.w != w || was.bounds.value.h != e)
    case _ => false
  }

  lemma StateHappens(was: Window, now: Window, c: Change)
    ensures c in StateDelta(was, now) <==>
              Happened(was, now, c) && (c.WindowMinimized? || c.WindowRestored? || c.WindowMaximized?)
  {}

  lemma BoundsHappen(was: Window, now: Window, c: Change)
    ensures c in BoundsDelta(was, now) <==> Happened(was, now, c) && (c.WindowMoved? || c.WindowResized?)
  {}

  lemma TitleHappens(was: Window, now: Window, c: Change)
    ensures c in TitleDelta(was, now) <==> Happened(was, now, c) && c.TitleChanged?
  {}

  lemma WindowHappens(prev: map<int, Window>, now: Window, c: Change)
    ensures c in WindowDelta(prev, now) <==>
              if now.handle in prev then Happened(prev[now.handle], now, c)
              else c == WindowOpened(now.handle, now.title)
  {
    if now.handle in prev {
      StateHappens(prev[now.handle], now, c);
      BoundsHappen(prev[now.handle], now, c);
      TitleHappens(prev[now.handle], now, c);
    }
  }

  // ---- list by list

  lemma {:induction false} OfWindowsDelta(prev: map<int, Window>, curr: map<int, Window>, handles: seq<int>, c: Change)
    returns (k: nat)
    requires Within(handles, curr) && c in WindowsDelta(prev, curr, handles)
    ensures k < |handles| && c in WindowDelta(prev, curr[handles[k]])
  {
    k := |handles| - 1;
    if c !in WindowDelta(prev, curr[handles[k]]) {
      k := OfWindowsDelta(prev, curr, handles[..k], c);
    }
  }

  lemma {:induction false} ToWindowsDelta(prev: map<int, Window>, curr: map<int, Window>, handles: seq<int>, c: Change,
                                          k: nat)
    requires Within(handles, curr) && k < |handles| && c in WindowDelta(prev, curr[handles[k]])
    ensures c in WindowsDelta(prev, curr, handles)
  {
    var front := handles[..|handles| - 1];
    if k < |front| {
      assert front[k] == handles[k];
      ToWindowsDelta(prev, curr, front, c, k);
    }
    InBoth(WindowsDelta(prev, curr, front), WindowDelta(prev, curr[handles[|handles| - 1]]), c);
  }

  lemma InBoth(a: seq<Change>, b: seq<Change>, c: Change)
    ensures c in a + b <==> c in a || c in b
  {}

  lemma {:induction false} InWindowsGone(prev: map<int, Window>, curr: map<int, Window>, handles: seq<int>, c: Change)
    requires Within(handles, prev)
    ensures c in WindowsGone(prev, curr, handles) <==>
              exists k :: 0 <= k < |handles| && c in WindowGone(prev[handles[k]], curr)
  {
    if handles != [] {
      var front := handles[..|handles| - 1];
      InWindowsGone(prev, curr, front, c);
      assert forall k :: 0 <= k < |front| ==> front[k] == handles[k];
    }
  }

  lemma {:induction false} InAppsDelta(prev: map<string, App>, curr: map<string, App>, names: seq<string>, c: Change)
    requires Within(names, curr)
    ensures c in AppsDelta(prev, curr, names) <==>
              exists k :: 0 <= k < |names| && c in AppDelta(prev, curr[names[k]])
  {
    if names != [] {
      var front := names[..|names| - 1];
      InAppsDelta(prev, curr, front, c);
      assert forall k :: 0 <= k < |front| ==> front[k] == names[k];
    }
  }

  lemma {:induction false} InAppsGone(prev: map<string, App>, curr: map<string, App>, names: seq<string>, c: Change)
    requires Within(names, prev)
    ensures c in AppsGone(prev, curr, names) <==>
              exists k :: 0 <= k < |names| && c in AppGone(prev[names[k]], curr)
  {
    if names != [] {
      var front := names[..|names| - 1];
      InAppsGone(prev, curr, front, c);
      assert forall k :: 0 <= k < |front| ==> front[k] == names[k];
    }
  }

  // ---- the whole diff

  /** The change of a window between two snapshots. */
  ghost predicate WindowChanged(prev: seq<Window>, curr: seq<Window>, c: Change) {
    match c
    case WindowOpened(h, title) =>
      Gone(prev, h) && exists now :: Stands(curr, now) && now.handle == h && now.title == title
    case WindowClosed(h, title) =>
      Gone(curr, h) && exists was :: Stands(prev, was) && was.handle == h && was.title == title
    case _ =>
      exists was, now :: Stands(prev, was) && Stands(curr, now) && was.handle == now.handle && Happened(was, now, c)
  }

  /** The change of an application. */
  ghost predicate AppChanged(prev: seq<App>, curr: seq<App>, c: Change) {
    match c
    case AppOpened(name, ran, runs) =>
      && (exists now :: Listed(curr, now) && now.name == name && now.running == runs)
      && if ran.None? then Unlisted(prev, name)
         else
           && ran == Some(FALSE) && runs == TRUE
           && exists was :: Listed(prev, was) && was.name == name && was.running == FALSE
    case AppUnresponsive(name) =>
      exists was, now ::
        && Listed(prev, was) && Listed(curr, now) && was.name == now.name == name
        && !(was.running == FALSE && now.running == TRUE) && was.responsive == TRUE && now.responsive == FALSE
    case AppClosed(name) =>
      && (exists was :: Listed(prev, was) && was.name == name && was.running == TRUE)
      && (Unlisted(curr, name) || exists now :: Listed(curr, now) && now.name == name && now.running == FALSE)
    case _ => false
  }

  lemma OpenWindow(ws: seq<Window>, h: int)
    requires h in ByHandle(ws)
    ensures Stands(ws, ByHandle(ws)[h]) && ByHandle(ws)[h].handle == h
  {
    HandlesMeaning(ws);
    ByHandleExactly(ws, ByHandle(ws)[h]);
  }

  lemma OpenApp(apps: seq<App>, name: string)
    requires name in ByName(apps)
    ensures Listed(apps, ByName(apps)[name]) && ByName(apps)[name].name == name
  {
    NamesMeaning(apps);
    ByNameExactly(apps, ByName(apps)[name]);
  }

  lemma WindowDeltaIsChange(prev: seq<Window>, curr: seq<Window>, h: int, c: Change)
    requires h in ByHandle(curr) && c in WindowDelta(ByHandle(prev), ByHandle(curr)[h])
    ensures WindowChanged(prev, curr, c)
  {
    var now := ByHandle(curr)[h];
    OpenWindow(curr, h);
    WindowHappens(ByHandle(prev), now, c);
    if h in ByHandle(prev) {
      OpenWindow(prev, h);
    } else {
      ByHandleExactly(prev, now);
    }
  }

  lemma WindowGoneIsChange(prev: seq<Window>, curr: seq<Window>, h: int, c: Change)
    requires h in ByHandle(prev) && c in WindowGone(ByHandle(prev)[h], ByHandle(curr))
    ensures WindowChanged(prev, curr, c)
  {
    OpenWindow(prev, h);
    ByHandleExactly(curr, ByHandle(prev)[h]);
  }

  lemma WindowIndex(ws: seq<Window>, w: Window) returns (k: nat)
    requires Stands(ws, w)
    ensures Within(Handles(ws), ByHandle(ws)) && k < |Handles(ws)|
    ensures Handles(ws)[k] == w.handle && ByHandle(ws)[w.handle] == w
  {
    HandlesMeaning(ws);
    ByHandleExactly(ws, w);
    k :| 0 <= k < |Handles(ws)| && Handles(ws)[k] == w.handle;
  }

  lemma DeltaIsReported(prev: seq<Window>, curr: seq<Window>, now: Window, c: Change)
    requires Stands(curr, now) && c in WindowDelta(ByHandle(prev), now)
    ensures c in WindowChanges(prev, curr)
  {
    var k := WindowIndex(curr, now);
    ToWindowsDelta(ByHandle(prev), ByHandle(curr), Handles(curr), c, k);
  }

  lemma OpeningIsReported(prev: seq<Window>, curr: seq<Window>, now: Window)
    requires Stands(curr, now) && Gone(prev, now.handle)
    ensures WindowOpened(now.handle, now.title) in WindowChanges(prev, curr)
  {
    ByHandleExactly(prev, now);
    WindowHappens(ByHandle(prev), now, WindowOpened(now.handle, now.title));
    DeltaIsReported(prev, curr, now, WindowOpened(now.handle, now.title));
  }

  lemma ClosingIsReported(prev: seq<Window>, curr: seq<Window>, was: Window)
    requires Stands(prev, was) && Gone(curr, was.handle)
    ensures WindowClosed(was.handle, was.title) in WindowChanges(prev, curr)
  {
    var c := WindowClosed(was.handle, was.title);
    var k := WindowIndex(prev, was);
    ByHandleExactly(curr, was);
    assert c in WindowGone(ByHandle(prev)[Handles(prev)[k]], ByHandle(curr));
    InWindowsGone(ByHandle(prev), ByHandle(curr), Handles(prev), c);
  }

  lemma ChangingIsReported(prev: seq<Window>, curr: seq<Window>, was: Window, now: Window, c: Change)
    requires Stands(prev, was) && Stands(curr, now) && was.handle == now.handle && Happened(was, now, c)
    ensures c in WindowChanges(prev, curr)
  {
    ByHandleExactly(prev, was);
    WindowHappens(ByHandle(prev), now, c);
    DeltaIsReported(prev, curr, now, c);
  }

  lemma ChangeIsInWindows(prev: seq<Window>, curr: seq<Window>, c: Change)
    requires WindowChanged(prev, curr, c)
    ensures c in WindowChanges(prev, curr)
  {
    if c.WindowOpened? {
      var now :| Stands(curr, now) && now.handle == c.handle && now.title == c.title;
      OpeningIsReported(prev, curr, now);
    } else if c.WindowClosed? {
      var was :| Stands(prev, was) && was.handle == c.handle && was.title == c.was;
      ClosingIsReported(prev, curr, was);
    } else {
      var was, now :| Stands(prev, was) && Stands(curr, now) && was.handle == now.handle && Happened(was, now, c);
      ChangingIsReported(prev, curr, was, now, c);
    }
  }

  lemma WindowsReported(prev: seq<Window>, curr: seq<Window>, c: Change)
    ensures c in WindowChanges(prev, curr) <==> WindowChanged(prev, curr, c)
  {
    if WindowChanged(prev, curr, c) {
      ChangeIsInWindows(prev, curr, c);
    }
    if c in WindowChanges(prev, curr) {
      HandlesMeaning(prev);
      HandlesMeaning(curr);
      InWindowsGone(ByHandle(prev), ByHandle(curr), Handles(prev), c);
      if c in WindowsDelta(ByHandle(prev), ByHandle(curr), Handles(curr)) {
        var k := OfWindowsDelta(ByHandle(prev), ByHandle(curr), Handles(curr), c);
        WindowDeltaIsChange(prev, curr, Handles(curr)[k], c);
      } else {
        var k :| 0 <= k < |Handles(prev)| && c in WindowGone(ByHandle(prev)[Handles(prev)[k]], ByHandle(curr));
        WindowGoneIsChange(prev, curr, Handles(prev)[k], c);
      }
    }
  }

  lemma AppDeltaIsChange(prev: seq<App>, curr: seq<App>, name: string, c: Change)
    requires name in ByName(curr) && c in AppDelta(ByName(prev), ByName(curr)[name])
    ensures AppChanged(prev, curr, c)
  {
    OpenApp(curr, name);
    if name in ByName(prev) {
      OpenApp(prev, name);
    } else {
      ByNameExactly(prev, ByName(curr)[name]);
    }
  }

  lemma AppGoneIsChange(prev: seq<App>, curr: seq<App>, name: string, c: Change)
    requires name in ByName(prev) && c in AppGone(ByName(prev)[name], ByName(curr))
    ensures AppChanged(prev, curr, c)
  {
    OpenApp(prev, name);
    if name in ByName(curr) {
      OpenApp(curr, name);
    } else {
      ByNameExactly(curr, ByName(prev)[name]);
    }
  }

  lemma AppNamed(apps: seq<App>, a: App) returns (k: nat)
    requires Listed(apps, a)
    ensures Within(Names(apps), ByName(apps)) && k < |Names(apps)|
    ensures Names(apps)[k] == a.name && ByName(apps)[a.name] == a
  {
    NamesMeaning(apps);
    ByNameExactly(apps, a);
    k :| 0 <= k < |Names(apps)| && Names(apps)[k] == a.name;
  }

  lemma ChangeIsInApps(prev: seq<App>, curr: seq<App>, c: Change)
    requires AppChanged(prev, curr, c)
    ensures c in AppChanges(prev, curr)
  {
    NamesMeaning(prev);
    NamesMeaning(curr);
    InAppsDelta(ByName(prev), ByName(curr), Names(curr), c);
    InAppsGone(ByName(prev), ByName(curr), Names(prev), c);
    match c
    case AppOpened(name, ran, runs) =>
      var now :| Listed(curr, now) && now.name == name && now.running == runs;
      var k := AppNamed(curr, now);
      ByNameExactly(prev, now);
      if ran.Some? {
        var was :| Listed(prev, was) && was.name == name && was.running == FALSE;
        ByNameExactly(prev, was);
      }
      assert c in AppDelta(ByName(prev), ByName(curr)[Names(curr)[k]]);
    case AppUnresponsive(name) =>
      var was, now :| Listed(prev, was) && Listed(curr, now) && was.name == now.name == name
        && !(was.running == FALSE && now.running == TRUE) && was.responsive == TRUE && now.responsive == FALSE;
      var k := AppNamed(curr, now);
      ByNameExactly(prev, was);
      assert c in AppDelta(ByName(prev), ByName(curr)[Names(curr)[k]]);
    case AppClosed(name) =>
      var was :| Listed(prev, was) && was.name == name && was.running == TRUE;
      var k := AppNamed(prev, was);
      ByNameExactly(curr, was);
      if !Unlisted(curr, name) {
        var now :| Listed(curr, now) && now.name == name && now.running == FALSE;
        ByNameExactly(curr, now);
      }
      assert c in AppGone(ByName(prev)[Names(prev)[k]], ByName(curr));
  }

  lemma AppsReported(prev: seq<App>, curr: seq<App>, c: Change)
    ensures c in AppChanges(prev, curr) <==> AppChanged(prev, curr, c)
  {
    if AppChanged(prev, curr, c) {
      ChangeIsInApps(prev, curr, c);
    }
    if c in AppChanges(prev, curr) {
      NamesMeaning(prev);
      NamesMeaning(curr);
      InAppsDelta(ByName(prev), ByName(curr), Names(curr), c);
      InAppsGone(ByName(prev), ByName(curr), Names(prev), c);
      if c in AppsDelta(ByName(prev), ByName(curr), Names(curr)) {
        var k :| 0 <= k < |Names(curr)| && c in AppDelta(ByName(prev), ByName(curr)[Names(curr)[k]]);
        AppDeltaIsChange(prev, curr, Names(curr)[k], c);
      } else {
        var k :| 0 <= k < |Names(prev)| && c in AppGone(ByName(prev)[Names(prev)[k]], ByName(curr));
        AppGoneIsChange(prev, curr, Names(prev)[k], c);
      }
    }
  }

  /** The change of the foreground; a handle of zero is told as none. */
  predicate ForegroundMoved(prev: Option<int>, curr: Option<int>, c: Change) {
    && c.ForegroundChanged? && prev != curr
    && c.from == (if prev == Some(0) then None else prev) && c.to == (if curr == Some(0) then None else curr)
  }

  /** A change is reported between two snapshots exactly if it happened, told from the last entry that
      each list has for a window or an application. */
  lemma ReportedExactly(prev: Snapshot, curr: Snapshot, c: Change)
    ensures c in Diff(prev, curr) <==>
              || AppChanged(prev.apps, curr.apps, c) || WindowChanged(prev.windows, curr.windows, c)
              || ForegroundMoved(prev.foreground, curr.foreground, c)
  {
    AppsReported(prev.apps, curr.apps, c);
    WindowsReported(prev.windows, curr.windows, c);
  }

  // ---- the order of the report

  /** Applications first, those listed before those that stopped; then windows, those that stand before
      those that closed; the foreground last. */
  function Rank(c: Change): nat {
    match c
    case AppOpened(_, _, _) => 0
    case AppUnresponsive(_) => 0
    case AppClosed(_) => 1
    case WindowClosed(_, _) => 3
    case ForegroundChanged(_, _) => 4
    case _ => 2
  }

  predicate AllRanked(changes: seq<Change>, r: nat) { forall k :: 0 <= k < |changes| ==> Rank(changes[k]) == r }

  predicate Sorted(changes: seq<Change>) {
    forall i, j :: 0 <= i < j < |changes| ==> Rank(changes[i]) <= Rank(changes[j])
  }

  lemma {:induction false} AppsRanked(prev: map<string, App>, curr: map<string, App>, names: seq<string>)
    ensures Within(names, curr) ==> AllRanked(AppsDelta(prev, curr, names), 0)
    ensures Within(names, prev) ==> AllRanked(AppsGone(prev, curr, names), 1)
  {
    if names != [] {
      AppsRanked(prev, curr, names[..|names| - 1]);
    }
  }

  lemma RankedJoin(a: seq<Change>, b: seq<Change>, r: nat)
    requires AllRanked(a, r) && AllRanked(b, r)
    ensures AllRanked(a + b, r)
  {}

  lemma WindowRanked(prev: map<int, Window>, now: Window)
    ensures AllRanked(WindowDelta(prev, now), 2)
  {
    if now.handle in prev {
      var was := prev[now.handle];
      RankedJoin(TitleDelta(was, now), StateDelta(was, now), 2);
      RankedJoin(TitleDelta(was, now) + StateDelta(was, now), BoundsDelta(was, now), 2);
    }
  }

  lemma {:induction false} WindowsRanked(prev: map<int, Window>, curr: map<int, Window>, handles: seq<int>)
    requires Within(handles, curr)
    ensures AllRanked(WindowsDelta(prev, curr, handles), 2)
  {
    if handles != [] {
      var front, last := handles[..|handles| - 1], curr[handles[|handles| - 1]];
      WindowsRanked(prev, curr, front);
      WindowRanked(prev, last);
      RankedJoin(WindowsDelta(prev, curr, front), WindowDelta(prev, last), 2);
    }
  }

  lemma {:induction false} WindowsGoneRanked(prev: map<int, Window>, curr: map<int, Window>, handles: seq<int>)
    requires Within(handles, prev)
    ensures AllRanked(WindowsGone(prev, curr, handles), 3)
  {
    if handles != [] {
      WindowsGoneRanked(prev, curr, handles[..|handles| - 1]);
    }
  }

  /** In order, with ranks between these. */
  predicate SortedWithin(changes: seq<Change>, low: nat, high: nat) {
    Sorted(changes) && forall k :: 0 <= k < |changes| ==> low <= Rank(changes[k]) <= high
  }

  lemma SortedJoin(a: seq<Change>, b: seq<Change>, low: nat, mid: nat, high: nat)
    requires low <= mid <= high && SortedWithin(a, low, mid) && SortedWithin(b, mid, high)
    ensures SortedWithin(a + b, low, high)
  {}

  lemma RankedIsSorted(changes: seq<Change>, r: nat)
    requires AllRanked(changes, r)
    ensures SortedWithin(changes, r, r)
  {}

  lemma AppsSorted(prev: seq<App>, curr: seq<App>)
    ensures SortedWithin(AppChanges(prev, curr), 0, 1)
  {
    NamesMeaning(prev);
    NamesMeaning(curr);
    AppsRanked(ByName(prev), ByName(curr), Names(curr));
    AppsRanked(ByName(prev), ByName(curr), Names(prev));
    RankedIsSorted(AppsDelta(ByName(prev), ByName(curr), Names(curr)), 0);
    SortedJoin(AppsDelta(ByName(prev), ByName(curr), Names(curr)), AppsGone(ByName(prev), ByName(curr), Names(prev)),
               0, 1, 1);
  }

  lemma WindowsSorted(prev: seq<Window>, curr: seq<Window>)
    ensures SortedWithin(WindowChanges(prev, curr), 2, 3)
  {
    HandlesMeaning(prev);
    HandlesMeaning(curr);
    WindowsRanked(ByHandle(prev), ByHandle(curr), Handles(curr));
    WindowsGoneRanked(ByHandle(prev), ByHandle(curr), Handles(prev));
    RankedIsSorted(WindowsDelta(ByHandle(prev), ByHandle(curr), Handles(curr)), 2);
    RankedIsSorted(WindowsGone(ByHandle(prev), ByHandle(curr), Handles(prev)), 3);
    SortedJoin(WindowsDelta(ByHandle(prev), ByHandle(curr), Handles(curr)),
               WindowsGone(ByHandle(prev), ByHandle(curr), Handles(prev)), 2, 3, 3);
  }

  lemma ReportIsSorted(prev: Snapshot, curr: Snapshot)
    ensures Sorted(Diff(prev, curr))
  {
    AppsSorted(prev.apps, curr.apps);
    WindowsSorted(prev.windows, curr.windows);
    SortedJoin(AppChanges(prev.apps, curr.apps), WindowChanges(prev.windows, curr.windows), 0, 2, 3);
    SortedJoin(AppChanges(prev.apps, curr.apps) + WindowChanges(prev.windows, curr.windows),
               ForegroundDelta(prev.foreground, curr.foreground), 0, 4, 4);
  }

  /** Where a window is listed first. */
  function FirstAt(ws: seq<Window>, h: int): nat {
    if ws == [] || ws[0].handle == h then 0 else 1 + FirstAt(ws[1..], h)
  }

  lemma {:induction false} FirstAtGrows(ws: seq<Window>, w: Window, h: int)
    ensures h in Handles(ws) ==> FirstAt(ws + [w], h) == FirstAt(ws, h) < |ws|
    ensures h !in Handles(ws) ==> FirstAt(ws, h) == |ws|
    ensures h !in Handles(ws) && h == w.handle ==> FirstAt(ws + [w], h) == |ws|
  {
    HandlesMeaning(ws);
    FirstAtBounds(ws, w, h);
    if h in Handles(ws) {
      ByHandleExactly(ws, ByHandle(ws)[h]);
    } else {
      ByHandleExactly(ws, Window(h, "", UNKNOWN, UNKNOWN, None));
    }
  }

  lemma {:induction false} FirstAtBounds(ws: seq<Window>, w: Window, h: int)
    ensures FirstAt(ws, h) <= |ws| && (FirstAt(ws, h) == |ws| <==> Gone(ws, h))
    ensures FirstAt(ws, h) < |ws| ==> FirstAt(ws + [w], h) == FirstAt(ws, h)
    ensures FirstAt(ws, h) == |ws| && h == w.handle ==> FirstAt(ws + [w], h) == |ws|
  {
    if ws != [] {
      assert (ws + [w])[0] == ws[0] && (ws + [w])[1..] == ws[1..] + [w];
      FirstAtBounds(ws[1..], w, h);
      assert forall k :: 0 < k < |ws| ==> ws[k] == ws[1..][k - 1];
      if Gone(ws[1..], h) && ws[0].handle != h {
        assert Gone(ws, h);
      }
      if Gone(ws, h) {
        assert forall k :: 0 <= k < |ws[1..]| ==> ws[1..][k] == ws[k + 1];
      }
    }
  }

  /** Windows are gone through in the order in which they are first listed. */
  lemma {:induction false} HandlesOrder(ws: seq<Window>)
    ensures forall i, j :: 0 <= i < j < |Handles(ws)| ==> FirstAt(ws, Handles(ws)[i]) < FirstAt(ws, Handles(ws)[j])
  {
    if ws != [] {
      var front, w := ws[..|ws| - 1], ws[|ws| - 1];
      HandlesOrder(front);
      assert ws == front + [w];
      forall i, j | 0 <= i < j < |Handles(ws)| ensures FirstAt(ws, Handles(ws)[i]) < FirstAt(ws, Handles(ws)[j]) {
        FirstAtGrows(front, w, Handles(ws)[i]);
        FirstAtGrows(front, w, Handles(ws)[j]);
      }
    }
  }
}
