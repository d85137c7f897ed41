/**
  The whole state the window manager keeps, and what every event does to it.

  The state is the live window list, the nine workspace records, the index
  of the current workspace and the master factor. The requests sent to the
  X server are kept in a log, in the order they are made; the X server's
  answer to `window_exists` is a set `alive` of handles that still exist,
  supplied with each operation that asks.

  The live list is a value of its own. In the C code, after a switch, the
  live array and the current workspace's record point at the same buffer;
  here the current record is simply whatever was stored last, and it is
  rewritten with the live list on the next switch away.
*/
module Workspaces {
  import opened WindowList
  import opened Layout
  import opened Keys

  /** NUM_WORKSPACES (tags.h:9). */
  const NUM_WORKSPACES := 9

  /** The X requests the window manager makes. */
  datatype Request =
    | MoveResize(placement: Placement)
    | MapWindow(window: Window)
    | UnmapWindow(window: Window)
    | SetInputFocus(window: Window)
    | DestroyWindow(window: Window)

  /** The X events `handle_event` distinguishes; every other event is ignored. */
  datatype Event =
    | KeyPress(super: bool, shift: bool, keysym: int)
    | MapRequest(window: Window)
    | DestroyNotify(window: Window)
    | OtherEvent

  datatype State = State(
    geometry: Geometry,
    live: Workspace,
    records: seq<Workspace>,
    current: int,
    mfact: int,
    log: seq<Request>)

  /** What holds between any two events: the live list and every record
      keep the index invariant, there are nine records, the current index
      names one of them and the master factor stays in range. */
  predicate Inv(st: State)
  {
    && Valid(st.live)
    && |st.records| == NUM_WORKSPACES
    && (forall i :: 0 <= i < |st.records| ==> Valid(st.records[i]))
    && 0 <= st.current < NUM_WORKSPACES
    && MIN_MFACT <= st.mfact <= MAX_MFACT
  }

  /** The workspace store and the layout parameters are as they were. */
  predicate SameWorkspaces(st: State, r: State)
  {
    r.geometry == st.geometry && r.records == st.records && r.current == st.current && r.mfact == st.mfact
  }

  function MoveResizeAll(ps: seq<Placement>): (r: seq<Request>)
    ensures |r| == |ps| && forall i :: 0 <= i < |ps| ==> r[i] == MoveResize(ps[i])
  {
    seq(|ps|, i requires 0 <= i < |ps| => MoveResize(ps[i]))
  }

  /** The requests one call of `tile` makes for the live list. */
  function TileRequests(st: State): seq<Request>
  {
    MoveResizeAll(Tile(st.live.windows, st.geometry, st.mfact))
  }

  function Retile(st: State): State
  {
    st.(log := st.log + TileRequests(st))
  }

  /** The requests of `map_workspace`'s loop: one map per handle that still
      exists, in list order; handles that are gone are skipped. */
  function MapExisting(s: seq<Window>, alive: set<Window>): (r: seq<Request>)
    ensures |r| <= |s|
    ensures |r| == |s| <==> forall i :: 0 <= i < |s| ==> s[i] in alive
  {
    if s == [] then []
    else MapExisting(s[..|s| - 1], alive) + (if s[|s| - 1] in alive then [MapWindow(s[|s| - 1])] else [])
  }

  /** The requests of `unmap_workspace`'s loop. */
  function UnmapExisting(s: seq<Window>, alive: set<Window>): (r: seq<Request>)
    ensures |r| <= |s|
    ensures |r| == |s| <==> forall i :: 0 <= i < |s| ==> s[i] in alive
  {
    if s == [] then []
    else UnmapExisting(s[..|s| - 1], alive) + (if s[|s| - 1] in alive then [UnmapWindow(s[|s| - 1])] else [])
  }

  /** `map_workspace` maps exactly the listed windows that still exist. */
  lemma {:induction false} MapExistingExactly(s: seq<Window>, alive: set<Window>)
    ensures forall q :: q in MapExisting(s, alive) ==> q.MapWindow? && q.window in s && q.window in alive
    ensures forall w :: w in s && w in alive ==> MapWindow(w) in MapExisting(s, alive)
  {
    if s != [] {
      var init := s[..|s| - 1];
      MapExistingExactly(init, alive);
      assert s == init + [s[|s| - 1]];
    }
  }

  /** `unmap_workspace` unmaps exactly the listed windows that still exist. */
  lemma {:induction false} UnmapExistingExactly(s: seq<Window>, alive: set<Window>)
    ensures forall q :: q in UnmapExisting(s, alive) ==> q.UnmapWindow? && q.window in s && q.window in alive
    ensures forall w :: w in s && w in alive ==> UnmapWindow(w) in UnmapExisting(s, alive)
  {
    if s != [] {
      var init := s[..|s| - 1];
      UnmapExistingExactly(init, alive);
      assert s == init + [s[|s| - 1]];
    }
  }

  /** The state at startup: the globals' initial values and the nine empty
      records `initialize_workspaces` leaves. */
  function Initial(g: Geometry, mfact: int, current: int): (st: State)
    requires MIN_MFACT <= mfact <= MAX_MFACT && 0 <= current < NUM_WORKSPACES
    ensures Inv(st) && st.live == Empty && st.log == []
    ensures forall i :: 0 <= i < |st.records| ==> st.records[i] == Empty
  {
    State(g, Empty, seq(NUM_WORKSPACES, _ => Empty), current, mfact, [])
  }

  /** MapRequest: map the window, append it to the live list, focus it and
      re-tile. */
  function MapNewWindow(st: State, w: Window): (r: State)
    requires Inv(st)
    ensures Inv(r) && SameWorkspaces(st, r)
    ensures r.live == Append(st.live, w)
    ensures r.log == st.log + [MapWindow(w)] + TileRequests(r)
  {
    Retile(st.(live := Append(st.live, w), log := st.log + [MapWindow(w)]))
  }

  /** `remove_window`: a handle that is not in the live list changes nothing,
      not even the layout; otherwise it leaves the live list and the layout is
      redone. No workspace record is searched. */
  function RemoveWindow(st: State, w: Window): (r: State)
    requires Inv(st)
    ensures Inv(r) && SameWorkspaces(st, r)
    ensures w !in st.live.windows ==> r == st
    ensures w in st.live.windows ==> r.live == Removed(st.live, w) && r.log == st.log + TileRequests(r)
  {
    if w in st.live.windows then Retile(st.(live := Removed(st.live, w))) else st
  }

  /** `close_focused`: destroy the focused window and remove it. */
  function CloseFocused(st: State): (r: State)
    requires Inv(st)
    ensures Inv(r) && SameWorkspaces(st, r)
    ensures r.live == Closed(st.live)
    ensures |st.live.windows| == 0 ==> r == st
    ensures |st.live.windows| > 0 ==>
      r.log == st.log + [DestroyWindow(st.live.windows[st.live.focused])] + TileRequests(r)
  {
    if |st.live.windows| > 0 then
      var w := st.live.windows[st.live.focused];
      RemoveWindow(st.(log := st.log + [DestroyWindow(w)]), w)
    else st
  }

  /** `focus_next`: move the cursor and give the input focus to the window
      it now names. */
  function FocusNext(st: State): (r: State)
    requires Inv(st)
    ensures Inv(r) && SameWorkspaces(st, r) && r.live == Next(st.live)
    ensures |st.live.windows| == 0 ==> r == st
    ensures |st.live.windows| > 0 ==>
      r.log == st.log + [SetInputFocus(r.live.windows[r.live.focused])]
  {
    if |st.live.windows| > 0 then
      var live := Next(st.live);
      st.(live := live, log := st.log + [SetInputFocus(live.windows[live.focused])])
    else st
  }

  /** `focus_prev`. */
  function FocusPrev(st: State): (r: State)
    requires Inv(st)
    ensures Inv(r) && SameWorkspaces(st, r) && r.live == Prev(st.live)
    ensures |st.live.windows| == 0 ==> r == st
    ensures |st.live.windows| > 0 ==>
      r.log == st.log + [SetInputFocus(r.live.windows[r.live.focused])]
  {
    if |st.live.windows| > 0 then
      var live := Prev(st.live);
      st.(live := live, log := st.log + [SetInputFocus(live.windows[live.focused])])
    else st
  }

  /** `rotate_stack`: it makes no request itself; the key handler re-tiles. */
  function RotateStack(st: State, direction: int): (r: State)
    requires Inv(st)
    ensures Inv(r) && SameWorkspaces(st, r) && r.log == st.log
    ensures r.live == Rotated(st.live, direction)
  {
    st.(live := Rotated(st.live, direction))
  }

  /** `switch_to_workspace(index)`: store the live list in the current
      record and hide it, make the target record the live list, show it and
      redo the layout. */
  function SwitchToWorkspace(st: State, index: int, alive: set<Window>): (r: State)
    requires Inv(st)
    ensures Inv(r)
  {
    if index < 0 || index >= NUM_WORKSPACES then st
    else
      var records := st.records[st.current := st.live];
      var hidden := st.log + UnmapExisting(records[st.current].windows, alive);
      var target := records[index];
      var live := Workspace(target.windows, if |target.windows| > 0 then target.focused else 0);
      Retile(State(st.geometry, live, records, index, st.mfact, hidden + MapExisting(live.windows, alive)))
  }

  /** An index outside [0, 9) changes nothing. Otherwise the old record
      receives the live list, every other record is untouched, the target
      record becomes the live list (switching to the current workspace keeps
      it), and the requests are: hide the old windows, show the new ones,
      lay them out. */
  lemma SwitchEffect(st: State, index: int, alive: set<Window>)
    requires Inv(st)
    ensures var r := SwitchToWorkspace(st, index, alive);
      && r.geometry == st.geometry && r.mfact == st.mfact
      && (!(0 <= index < NUM_WORKSPACES) ==> r == st)
      && (0 <= index < NUM_WORKSPACES ==>
        && r.current == index
        && r.records[st.current] == st.live
        && (forall i :: 0 <= i < NUM_WORKSPACES && i != st.current ==> r.records[i] == st.records[i])
        && r.live == (if index == st.current then st.live else st.records[index])
        && r.log == st.log + UnmapExisting(st.live.windows, alive) + MapExisting(r.live.windows, alive) + TileRequests(r))
  {
  }

  /** `send_window_to_workspace(w, index)`: hide the window, append it to
      the target record, take it out of the live list, redo the layout. */
  function SendWindowToWorkspace(st: State, w: Window, index: int, alive: set<Window>): (r: State)
    requires Inv(st)
    ensures Inv(r)
  {
    if index < 0 || index >= NUM_WORKSPACES || w !in alive then st
    else
      var target := st.records[index];
      var records := st.records[index := Workspace(target.windows + [w], target.focused)];
      Retile(st.(live := SentAway(st.live, w), records := records, log := st.log + [UnmapWindow(w)]))
  }

  /** An index outside [0, 9) or a window that no longer exists changes
      nothing. Otherwise the target record gets the window last and keeps its
      cursor, every other record is untouched, the window leaves the live
      list, and the requests are: hide the window, lay out what is left. */
  lemma SendEffect(st: State, w: Window, index: int, alive: set<Window>)
    requires Inv(st)
    ensures var r := SendWindowToWorkspace(st, w, index, alive);
      && r.geometry == st.geometry && r.mfact == st.mfact && r.current == st.current
      && (!(0 <= index < NUM_WORKSPACES) || w !in alive ==> r == st)
      && (0 <= index < NUM_WORKSPACES && w in alive ==>
        && r.records[index].windows == st.records[index].windows + [w]
        && r.records[index].focused == st.records[index].focused
        && (forall i :: 0 <= i < NUM_WORKSPACES && i != index ==> r.records[i] == st.records[i])
        && r.live == SentAway(st.live, w)
        && r.log == st.log + [UnmapWindow(w)] + TileRequests(r))
  {
  }

  /** `handle_workspace_keys`: Super+digit switches, Super+Shift+digit sends
      the focused window, provided there is one. */
  function HandleWorkspaceKeys(st: State, build: Build, super: bool, shift: bool, keysym: int, alive: set<Window>): (r: State)
    requires Inv(st)
    ensures Inv(r)
    ensures !super || !IsDigit(keysym) ==> r == st
    ensures build == Standalone && keysym - XK_1 == st.current ==> r == st
    ensures shift && |st.live.windows| == 0 ==> r == st
  {
    match WorkspaceKey(build, st.current, super, shift, keysym)
    case NoWorkspaceAction => st
    case SwitchTo(index) => SwitchToWorkspace(st, index, alive)
    case SendTo(index) =>
      if |st.live.windows| > 0 && 0 <= st.live.focused < |st.live.windows| then
        SendWindowToWorkspace(st, st.live.windows[st.live.focused], index, alive)
      else st
  }

  /** The KeyPress chain of `handle_event`. Spawning is left out; every other
      action touches only the live list, the master factor and the log. */
  function ApplyAction(st: State, a: Action): (r: State)
    requires Inv(st)
    ensures Inv(r) && r.records == st.records && r.current == st.current && r.geometry == st.geometry
    ensures a != ShrinkMaster && a != GrowMaster ==> r.mfact == st.mfact
  {
    match a
    case RotateForward => Retile(RotateStack(st, 1))
    case RotateBackward => Retile(RotateStack(st, -1))
    case SpawnTerminal => st
    case SpawnLauncher => st
    case ShrinkMaster => Retile(st.(mfact := DecreaseMfact(st.mfact)))
    case GrowMaster => Retile(st.(mfact := IncreaseMfact(st.mfact)))
    case NextWindow => FocusNext(st)
    case PrevWindow => FocusPrev(st)
    case CloseWindow => CloseFocused(st)
    case NoAction => st
  }

  /** A KeyPress runs the chain and then, always, `handle_workspace_keys`.
      Their keys are disjoint: a digit only ever reaches the workspace
      handler and any other key only the chain. */
  function HandleKeyPress(st: State, build: Build, super: bool, shift: bool, keysym: int, alive: set<Window>): (r: State)
    requires Inv(st)
    ensures Inv(r)
    ensures IsDigit(keysym) ==> r == HandleWorkspaceKeys(st, build, super, shift, keysym, alive)
    ensures !IsDigit(keysym) ==> r == ApplyAction(st, Classify(super, shift, keysym))
  {
    HandleWorkspaceKeys(ApplyAction(st, Classify(super, shift, keysym)), build, super, shift, keysym, alive)
  }

  /** `handle_event`. */
  function HandleEvent(st: State, build: Build, e: Event, alive: set<Window>): (r: State)
    requires Inv(st)
    ensures Inv(r)
  {
    match e
    case KeyPress(super, shift, keysym) => HandleKeyPress(st, build, super, shift, keysym, alive)
    case MapRequest(w) => MapNewWindow(st, w)
    case DestroyNotify(w) => RemoveWindow(st, w)
    case OtherEvent => st
  }

  /** The event loop: events handled one after another, each with the set
      of windows that exist when it is handled. */
  function Run(st: State, build: Build, steps: seq<(Event, set<Window>)>): (r: State)
    requires Inv(st)
    ensures Inv(r)
    decreases |steps|
  {
    if steps == [] then st
    else Run(HandleEvent(st, build, steps[0].0, steps[0].1), build, steps[1..])
  }

  /** One turn of the event loop: the first remaining event is handled,
      then the rest. */
  lemma RunStep(st: State, build: Build, steps: seq<(Event, set<Window>)>, k: int)
    requires Inv(st) && 0 <= k < |steps|
    ensures Run(st, build, steps[k..]) ==
      Run(HandleEvent(st, build, steps[k].0, steps[k].1), build, steps[k + 1..])
  {
    assert steps[k..][1..] == steps[k + 1..];
  }

  /** Switching away and back restores the live list and its cursor, and
      the visited workspace keeps what it had become. */
  lemma SwitchAwayAndBack(st: State, index: int, alive1: set<Window>, alive2: set<Window>)
    requires Inv(st) && 0 <= index < NUM_WORKSPACES && index != st.current
    ensures var away := SwitchToWorkspace(st, index, alive1);
      var back := SwitchToWorkspace(away, st.current, alive2);
      && back.live == st.live && back.current == st.current
      && back.records[index] == away.live
      && forall i :: 0 <= i < NUM_WORKSPACES && i != index ==> back.records[i] == away.records[i]
  {
  }

  /** Sending a window to another workspace and then switching to it makes
      the window live again; if the window was listed once, the workspace it
      came from no longer lists it. */
  lemma {:induction false} SendThenSwitch(st: State, w: Window, index: int, alive1: set<Window>, alive2: set<Window>)
    requires Inv(st) && 0 <= index < NUM_WORKSPACES && index != st.current
    requires w in alive1 && w in st.live.windows
    ensures var sent := SendWindowToWorkspace(st, w, index, alive1);
      var there := SwitchToWorkspace(sent, index, alive2);
      && w in there.live.windows
      && there.live.windows[|there.live.windows| - 1] == w
      && (multiset(st.live.windows)[w] == 1 ==> w !in there.records[st.current].windows)
  {
    var sent := SendWindowToWorkspace(st, w, index, alive1);
    var there := SwitchToWorkspace(sent, index, alive2);
    assert there.live == sent.records[index];
    assert there.records[st.current] == sent.live;
    if multiset(st.live.windows)[w] == 1 {
      DeleteMultiset(st.live.windows, IndexOf(st.live.windows, w));
      assert multiset(sent.live.windows)[w] == 0;
    }
  }

  /** From workspace 0 holding only E, switching to workspace 2 holding only
      D hides E, shows D, lays D out alone and makes it the focused live
      window. */
  lemma SwitchExample(g: Geometry, d: Window, e: Window)
    requires d != e
    ensures
      var records := seq(NUM_WORKSPACES, i => if i == 2 then Workspace([d], 0) else Empty);
      var st := State(g, Workspace([e], 0), records, 0, DEFAULT_MFACT, []);
      var r := SwitchToWorkspace(st, 2, {d, e});
      && r.live == Workspace([d], 0) && r.current == 2 && r.records[0] == Workspace([e], 0)
      && r.log == [UnmapWindow(e), MapWindow(d),
                   MoveResize(Placement(d, g.gap, g.gap, g.width - 2 * g.gap, g.height - 2 * g.gap))]
  {
    var records := seq(NUM_WORKSPACES, i => if i == 2 then Workspace([d], 0) else Empty);
    var st := State(g, Workspace([e], 0), records, 0, DEFAULT_MFACT, []);
    assert Inv(st);
    assert UnmapExisting([e], {d, e}) == [UnmapWindow(e)] by {
      assert [e][..0] == [];
    }
    assert MapExisting([d], {d, e}) == [MapWindow(d)] by {
      assert [d][..0] == [];
    }
  }

  /** In the standalone build a digit key naming the current workspace
      changes nothing, with or without Shift. */
  lemma StandaloneIgnoresCurrent(st: State, super: bool, shift: bool, alive: set<Window>)
    requires Inv(st)
    ensures HandleEvent(st, Standalone, KeyPress(super, shift, XK_1 + st.current), alive) == st
  {
  }

  /** In the split build, Super+Shift with the current workspace's digit
      appends the focused window to the current workspace's stored record,
      which is stale, and removes it from the live list. The next switch to
      any other workspace overwrites that record with the live list. So a
      window that was listed once and in no other record, though it still
      exists, ends up hidden and listed nowhere. */
  lemma {:induction false} SplitSendToCurrentDropsWindow(st: State, j: int, alive1: set<Window>, alive2: set<Window>)
    requires Inv(st) && |st.live.windows| > 0
    requires 0 <= j < NUM_WORKSPACES && j != st.current
    requires st.live.windows[st.live.focused] in alive1
    requires multiset(st.live.windows)[st.live.windows[st.live.focused]] == 1
    requires forall i :: 0 <= i < NUM_WORKSPACES && i != st.current ==> st.live.windows[st.live.focused] !in st.records[i].windows
    ensures
      var w := st.live.windows[st.live.focused];
      var sent := HandleEvent(st, Split, KeyPress(true, true, XK_1 + st.current), alive1);
      var away := HandleEvent(sent, Split, KeyPress(true, false, XK_1 + j), alive2);
      && w !in sent.live.windows && UnmapWindow(w) in sent.log
      && w !in away.live.windows
      && (forall i :: 0 <= i < NUM_WORKSPACES ==> w !in away.records[i].windows)
  {
    var w := st.live.windows[st.live.focused];
    SplitSendKey(st, st.current, alive1);
    var sent := SendWindowToWorkspace(st, w, st.current, alive1);
    SendToCurrent(st, w, alive1);
    SplitSwitchKey(sent, j, alive2);
    SwitchLosesWindow(sent, w, j, alive2);
  }

  /** Sending a live window that is listed once to the current workspace:
      it is hidden and leaves the live list, and only the current record,
      which the next switch away overwrites, lists it. */
  lemma SendToCurrent(st: State, w: Window, alive: set<Window>)
    requires Inv(st) && w in alive && w in st.live.windows && multiset(st.live.windows)[w] == 1
    requires forall i :: 0 <= i < NUM_WORKSPACES && i != st.current ==> w !in st.records[i].windows
    ensures var sent := SendWindowToWorkspace(st, w, st.current, alive);
      && sent.current == st.current && w !in sent.live.windows && UnmapWindow(w) in sent.log
      && w in sent.records[sent.current].windows
      && forall i :: 0 <= i < NUM_WORKSPACES && i != sent.current ==> w !in sent.records[i].windows
  {
    var sent := SendWindowToWorkspace(st, w, st.current, alive);
    SendEffect(st, w, st.current, alive);
    DeleteMultiset(st.live.windows, IndexOf(st.live.windows, w));
    assert multiset(sent.live.windows)[w] == 0;
    assert sent.log == (st.log + [UnmapWindow(w)]) + TileRequests(sent);
    assert (st.log + [UnmapWindow(w)])[|st.log|] == UnmapWindow(w);
  }

  /** A window listed neither live nor in any record but the current one is
      listed nowhere after a switch to another workspace. */
  lemma SwitchLosesWindow(st: State, w: Window, j: int, alive: set<Window>)
    requires Inv(st) && 0 <= j < NUM_WORKSPACES && j != st.current && w !in st.live.windows
    requires forall i :: 0 <= i < NUM_WORKSPACES && i != st.current ==> w !in st.records[i].windows
    ensures var away := SwitchToWorkspace(st, j, alive);
      && w !in away.live.windows
      && forall i :: 0 <= i < NUM_WORKSPACES ==> w !in away.records[i].windows
  {
    SwitchEffect(st, j, alive);
  }

  /** Super+Shift with a digit in the split build sends the focused window. */
  lemma SplitSendKey(st: State, index: int, alive: set<Window>)
    requires Inv(st) && |st.live.windows| > 0 && 0 <= index < NUM_WORKSPACES
    ensures HandleEvent(st, Split, KeyPress(true, true, XK_1 + index), alive) ==
      SendWindowToWorkspace(st, st.live.windows[st.live.focused], index, alive)
  {
  }

  /** Super with a digit in the split build switches workspace. */
  lemma SplitSwitchKey(st: State, index: int, alive: set<Window>)
    requires Inv(st) && 0 <= index < NUM_WORKSPACES
    ensures HandleEvent(st, Split, KeyPress(true, false, XK_1 + index), alive) ==
      SwitchToWorkspace(st, index, alive)
  {
  }

  /** The smallest case: one window on workspace 0, nothing stored, then a
      switch to workspace 1. */
  lemma SplitSendToCurrentExample(g: Geometry, a: Window)
    ensures
      var st := State(g, Workspace([a], 0), seq(NUM_WORKSPACES, _ => Empty), 0, DEFAULT_MFACT, []);
      var sent := HandleEvent(st, Split, KeyPress(true, true, XK_1), {a});
      var away := HandleEvent(sent, Split, KeyPress(true, false, XK_1 + 1), {a});
      && sent.live.windows == [] && away.live.windows == []
      && (forall i :: 0 <= i < NUM_WORKSPACES ==> a !in away.records[i].windows)
  {
    var st := State(g, Workspace([a], 0), seq(NUM_WORKSPACES, _ => Empty), 0, DEFAULT_MFACT, []);
    assert multiset(st.live.windows)[a] == 1;
    SplitSendToCurrentDropsWindow(st, 1, {a}, {a});
    SendEffect(st, a, 0, {a});
  }
}
