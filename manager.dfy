/**
  The window manager's globals and the procedures that update them in
  place.

  The live list is an array `windows` whose first `nwindows` entries are
  in use, with the cursor `focused`; the nine workspace records sit in a
  fixed array. Every public procedure is proved to do to `Model()` exactly
  what the matching function of the Workspaces module does to a state, so
  the properties proved there hold of these procedures; the step helpers
  they are built from are proved against WindowList functions or single
  field updates.
*/
module Wm {
  import opened WindowList
  import opened Layout
  import opened Keys
  import opened Workspaces

  /** The search loop of `remove_window` (xwm.c:211-217) and of
      `send_window_to_workspace` (xwm.c:130-136): the index of the first
      entry equal to `w` among the first `n`, or -1. */
  method FindFirst(a: array<Window>, n: int, w: Window) returns (index: int)
    requires 0 <= n <= a.Length
    ensures index == IndexOf(a[..n], w)
  {
    index := -1;
    var i := 0;
    while i < n
      invariant 0 <= i <= n
      invariant w !in a[..i]
    {
      if a[i] == w {
        index := i;
        break;
      }
      assert a[..i + 1] == a[..i] + [a[i]];
      i := i + 1;
    }
    ghost var s := a[..n];
    assert a[..i] == s[..i];
    if index == -1 {
      assert s == a[..i];
    }
  }

  /** The left-shift loop (xwm.c:220-222, xwm.c:141-143): entries after
      `index` move one place left over it; the last used slot keeps its old
      value. */
  method ShiftLeft(a: array<Window>, n: int, index: int)
    requires 0 <= index < n <= a.Length
    modifies a
    ensures a[..n - 1] == Delete(old(a[..n]), index)
    ensures a[n - 1..] == old(a[n - 1..])
  {
    ghost var s := a[..];
    var j := index;
    while j < n - 1
      invariant index <= j <= n - 1
      invariant forall k :: 0 <= k < index ==> a[k] == s[k]
      invariant forall k :: index <= k < j ==> a[k] == s[k + 1]
      invariant forall k :: j <= k < a.Length ==> a[k] == s[k]
    {
      a[j] := a[j + 1];
      j := j + 1;
    }
    ghost var d := Delete(s[..n], index);
    assert forall k :: 0 <= k < n - 1 ==> a[k] == d[k];
    assert a[..n - 1] == d;
  }

  class Manager {
    /** Which source the procedures follow where the two builds differ. */
    const build: Build
    /** Screen size and gap. */
    const geometry: Geometry

    var windows: array<Window>
    var nwindows: int
    var focused: int
    var workspaces: array<Workspace>
    var current: int
    /** `mfact` (xwm.c) or `master_size_factor` (main.c), as a percent. */
    var mfact: int
    /** Every request made to the X server so far. */
    ghost var log: seq<Request>

    /** The live list and its cursor. */
    ghost function Live(): Workspace
      reads this`windows, this`nwindows, this`focused, windows
      requires 0 <= nwindows <= windows.Length
    {
      Workspace(windows[..nwindows], focused)
    }

    ghost function Model(): State
      reads this, windows, workspaces
      requires 0 <= nwindows <= windows.Length
    {
      State(geometry, Live(), workspaces[..], current, mfact, log)
    }

    ghost predicate Valid()
      reads this, windows, workspaces
    {
      0 <= nwindows <= windows.Length && Inv(Model())
    }

    /** Startup: the globals' initial values, then `initialize_workspaces`. */
    constructor (build: Build, geometry: Geometry, mfact: int, current: int)
      requires MIN_MFACT <= mfact <= MAX_MFACT && 0 <= current < NUM_WORKSPACES
      ensures Valid() && Model() == Initial(geometry, mfact, current)
      ensures this.build == build
    {
      this.build := build;
      this.geometry := geometry;
      windows := new Window[0];
      nwindows := 0;
      focused := 0;
      workspaces := new Workspace[NUM_WORKSPACES];
      this.current := current;
      this.mfact := mfact;
      log := [];
      new;
      InitializeWorkspaces();
      assert workspaces[..] == seq(NUM_WORKSPACES, _ => Empty);
    }

    /** `initialize_workspaces` (tags.c:19-25): every record empty with
        cursor 0. */
    method InitializeWorkspaces()
      modifies workspaces
      ensures forall i :: 0 <= i < workspaces.Length ==> workspaces[i] == Empty
    {
      for i := 0 to workspaces.Length
        invariant forall k :: 0 <= k < i ==> workspaces[k] == Empty
      {
        workspaces[i] := Empty;
      }
    }

    /** `tile`: one move-resize request per live window, in list order. */
    method Tile()
      requires 0 <= nwindows <= windows.Length
      modifies this`log
      ensures Model() == Workspaces.Retile(old(Model()))
    {
      log := log + MoveResizeAll(Layout.Tile(windows[..nwindows], geometry, mfact));
    }

    /** One request to the X server. */
    method Emit(q: Request)
      requires 0 <= nwindows <= windows.Length
      modifies this`log
      ensures Model() == old(Model()).(log := old(log) + [q])
    {
      log := log + [q];
    }

    /** `focus_next` (xwm.c:196-201). */
    method FocusNext()
      requires Valid()
      modifies this`focused, this`log
      ensures Valid() && Model() == Workspaces.FocusNext(old(Model()))
    {
      if nwindows > 0 {
        focused := (focused + 1) % nwindows;
        log := log + [SetInputFocus(windows[focused])];
      }
    }

    /** `focus_prev` (xwm.c:203-208). */
    method FocusPrev()
      requires Valid()
      modifies this`focused, this`log
      ensures Valid() && Model() == Workspaces.FocusPrev(old(Model()))
    {
      if nwindows > 0 {
        focused := (focused - 1 + nwindows) % nwindows;
        log := log + [SetInputFocus(windows[focused])];
      }
    }

    /** The entry at `index` leaves the live list and the count drops by
        one (xwm.c:220-223, xwm.c:141-144). */
    method DeleteAt(index: int)
      requires 0 <= index < nwindows <= windows.Length
      modifies windows, this`nwindows
      ensures nwindows == old(nwindows) - 1
      ensures windows[..nwindows] == Delete(old(windows[..nwindows]), index)
    {
      ShiftLeft(windows, nwindows, index);
      nwindows := nwindows - 1;
    }

    /** The search, shift and cursor clamp of `remove_window`
        (xwm.c:211-231). The shrinking `realloc` is not modelled: the array
        keeps its length and only `nwindows` drops. */
    method RemoveFromLive(w: Window) returns (found: bool)
      requires 0 <= nwindows <= windows.Length && WindowList.Valid(Live())
      modifies windows, this`nwindows, this`focused
      ensures 0 <= nwindows <= windows.Length
      ensures found == (w in old(Live()).windows)
      ensures Live() == Removed(old(Live()), w)
    {
      var index := FindFirst(windows, nwindows, w);
      found := index != -1;
      if found {
        DeleteAt(index);
        if focused >= nwindows && nwindows > 0 {
          focused := nwindows - 1;
        } else if nwindows == 0 {
          focused := 0;
        }
      }
    }

    /** `remove_window` (xwm.c:210-234, main.c:69-93). */
    method RemoveWindow(w: Window)
      requires Valid()
      modifies this`nwindows, this`focused, this`log, windows
      ensures Valid() && Model() == Workspaces.RemoveWindow(old(Model()), w)
    {
      var found := RemoveFromLive(w);
      if found {
        Tile();
      }
    }

    /** `close_focused` (xwm.c:236-241, main.c:95-100). */
    method CloseFocused()
      requires Valid()
      modifies this`nwindows, this`focused, this`log, windows
      ensures Valid() && Model() == Workspaces.CloseFocused(old(Model()))
    {
      if nwindows > 0 {
        Emit(DestroyWindow(windows[focused]));
        RemoveWindow(windows[focused]);
      }
    }

    /** The body of `rotate_stack` (xwm.c:244-271) on the live list: pick
        the wrap-around neighbour, swap in place, move the cursor. */
    method RotateLive(direction: int)
      requires 0 <= nwindows <= windows.Length && WindowList.Valid(Live())
      modifies windows, this`focused
      ensures Live() == Rotated(old(Live()), direction)
    {
      if nwindows >= 2 {
        var swapIndex := -1;
        if direction == 1 {
          if focused == nwindows - 1 {
            swapIndex := 0;
          } else {
            swapIndex := focused + 1;
          }
        } else if direction == -1 {
          if focused == 0 {
            swapIndex := nwindows - 1;
          } else {
            swapIndex := focused - 1;
          }
        }
        assert swapIndex == SwapIndex(nwindows, focused, direction);
        if swapIndex != -1 {
          ghost var swapped := Swap(windows[..nwindows], focused, swapIndex);
          var temp := windows[focused];
          windows[focused] := windows[swapIndex];
          windows[swapIndex] := temp;
          assert forall k :: 0 <= k < nwindows ==> windows[k] == swapped[k];
          assert windows[..nwindows] == swapped;
          focused := swapIndex;
        }
      }
    }

    /** `rotate_stack` (xwm.c:243-272, main.c:102-131). */
    method RotateStack(direction: int)
      requires Valid()
      modifies this`focused, windows
      ensures Valid() && Model() == Workspaces.RotateStack(old(Model()), direction)
    {
      RotateLive(direction);
    }

    /** The `realloc` and append of MapRequest (xwm.c:314-317): the array
        grows by one slot when it is full, the window goes last and takes the
        focus. */
    method PushLive(w: Window)
      requires 0 <= nwindows <= windows.Length
      modifies this`windows, this`nwindows, this`focused, windows
      ensures 0 <= nwindows <= windows.Length
      ensures windows == old(windows) || fresh(windows)
      ensures Live() == Append(old(Live()), w)
    {
      ghost var live := Live();
      if nwindows == windows.Length {
        var grown := new Window[nwindows + 1];
        forall i | 0 <= i < nwindows {
          grown[i] := windows[i];
        }
        assert grown[..nwindows] == live.windows;
        windows := grown;
      }
      windows[nwindows] := w;
      focused := nwindows;
      nwindows := nwindows + 1;
      assert windows[..nwindows] == live.windows + [w];
    }

    /** MapRequest (xwm.c:313-318, main.c:171-176): map, append and focus,
        re-tile. */
    method MapRequest(w: Window)
      requires Valid()
      modifies this`windows, this`nwindows, this`focused, this`log, windows
      ensures windows == old(windows) || fresh(windows)
      ensures Valid() && Model() == MapNewWindow(old(Model()), w)
    {
      Emit(MapWindow(w));
      PushLive(w);
      Tile();
    }

    /** `unmap_workspace` (xwm.c:84-91, tags.c:37-44): hide every listed
        window that still exists. */
    method UnmapWorkspace(index: int, alive: set<Window>)
      requires 0 <= nwindows <= windows.Length && 0 <= index < workspaces.Length
      modifies this`log
      ensures Model() == old(Model()).(log := old(log) + UnmapExisting(workspaces[index].windows, alive))
    {
      var ws := workspaces[index].windows;
      for i := 0 to |ws|
        invariant log == old(log) + UnmapExisting(ws[..i], alive)
      {
        assert ws[..i + 1][..i] == ws[..i];
        if ws[i] in alive {
          log := log + [UnmapWindow(ws[i])];
        }
      }
      assert ws[..|ws|] == ws;
    }

    /** `map_workspace` (xwm.c:74-82, tags.c:27-35): show every listed
        window that still exists, then re-tile. */
    method MapWorkspace(index: int, alive: set<Window>)
      requires 0 <= nwindows <= windows.Length && 0 <= index < workspaces.Length
      modifies this`log
      ensures Model() == Workspaces.Retile(old(Model()).(log := old(log) + MapExisting(workspaces[index].windows, alive)))
    {
      var ws := workspaces[index].windows;
      for i := 0 to |ws|
        invariant log == old(log) + MapExisting(ws[..i], alive)
      {
        assert ws[..i + 1][..i] == ws[..i];
        if ws[i] in alive {
          log := log + [MapWindow(ws[i])];
        }
      }
      assert ws[..|ws|] == ws;
      Tile();
    }

    /** Step 1 of `switch_to_workspace` (xwm.c:96-99, tags.c:49-52): the
        live list and cursor are stored in the current record. */
    method StoreLive()
      requires 0 <= nwindows <= windows.Length && 0 <= current < workspaces.Length
      modifies workspaces
      ensures Model() == old(Model()).(records := old(Model()).records[current := old(Model()).live])
    {
      workspaces[current] := Workspace(windows[..nwindows], focused);
    }

    /** The live list becomes a copy of the current record
        (xwm.c:104-106, tags.c:57-59); an empty record resets the cursor. */
    method LoadLive()
      requires 0 <= nwindows <= windows.Length && 0 <= current < workspaces.Length
      modifies this`windows, this`nwindows, this`focused
      ensures 0 <= nwindows <= windows.Length && fresh(windows)
      ensures var target := old(Model()).records[current];
        Model() == old(Model()).(live := Workspace(target.windows, if |target.windows| > 0 then target.focused else 0))
    {
      var target := workspaces[current];
      windows := new Window[|target.windows|](i requires 0 <= i < |target.windows| => target.windows[i]);
      nwindows := |target.windows|;
      focused := if nwindows > 0 then target.focused else 0;
      assert windows[..nwindows] == target.windows;
    }

    /** `switch_to_workspace` (xwm.c:93-109, tags.c:46-62). The live list is
        stored by value and the target record copied into a fresh array. */
    method SwitchToWorkspace(index: int, alive: set<Window>)
      requires Valid()
      modifies this`windows, this`nwindows, this`focused, this`current, this`log, workspaces
      ensures windows == old(windows) || fresh(windows)
      ensures Valid() && Model() == Workspaces.SwitchToWorkspace(old(Model()), index, alive)
    {
      if index < 0 || index >= NUM_WORKSPACES {
        return;
      }
      StoreLive();
      UnmapWorkspace(current, alive);
      current := index;
      LoadLive();
      MapWorkspace(current, alive);
    }

    /** The search, shift and cursor update of `send_window_to_workspace`
        (xwm.c:130-158, tags.c:82-113). */
    method DropFromLive(w: Window)
      requires 0 <= nwindows <= windows.Length && WindowList.Valid(Live())
      modifies windows, this`nwindows, this`focused
      ensures 0 <= nwindows <= windows.Length
      ensures Live() == SentAway(old(Live()), w)
    {
      var found := FindFirst(windows, nwindows, w);
      if found != -1 {
        DeleteAt(found);
        if focused == found && nwindows > 0 {
          focused := 0;
        } else if focused > found {
          focused := focused - 1;
        }
      }
    }

    /** DropFromLive as a step of the whole state: only the live list
        changes. */
    method SendAway(w: Window)
      requires 0 <= nwindows <= windows.Length && WindowList.Valid(Live())
      modifies windows, this`nwindows, this`focused
      ensures 0 <= nwindows <= windows.Length
      ensures Model() == old(Model()).(live := SentAway(old(Model()).live, w))
    {
      DropFromLive(w);
    }

    /** The append to the target record (xwm.c:113-127, tags.c:67-80): the
        record gets the window last and keeps its cursor. */
    method StoreInRecord(index: int, w: Window)
      requires 0 <= nwindows <= windows.Length && 0 <= index < workspaces.Length
      modifies workspaces
      ensures Model() == old(Model()).(records := old(Model()).records[index :=
        Workspace(old(Model()).records[index].windows + [w], old(Model()).records[index].focused)])
    {
      var target := workspaces[index];
      workspaces[index] := Workspace(target.windows + [w], target.focused);
    }

    /** `send_window_to_workspace` (xwm.c:111-164, tags.c:64-117), without
        the `realloc` failure returns. */
    method SendWindowToWorkspace(w: Window, index: int, alive: set<Window>)
      requires Valid()
      modifies this`nwindows, this`focused, this`log, windows, workspaces
      ensures Valid() && Model() == Workspaces.SendWindowToWorkspace(old(Model()), w, index, alive)
    {
      if index < 0 || index >= NUM_WORKSPACES || w !in alive {
        return;
      }
      Emit(UnmapWindow(w));
      StoreInRecord(index, w);
      SendAway(w);
      Tile();
    }

    /** `handle_workspace_keys` (xwm.c:166-187, tags.c:120-131). */
    method HandleWorkspaceKeys(super: bool, shift: bool, keysym: int, alive: set<Window>)
      requires Valid()
      modifies this`windows, this`nwindows, this`focused, this`current, this`log, windows, workspaces
      ensures windows == old(windows) || fresh(windows)
      ensures Valid()
      ensures Model() == Workspaces.HandleWorkspaceKeys(old(Model()), build, super, shift, keysym, alive)
    {
      match WorkspaceKey(build, current, super, shift, keysym)
      case NoWorkspaceAction =>
      case SwitchTo(index) =>
        SwitchToWorkspace(index, alive);
      case SendTo(index) =>
        if nwindows > 0 && 0 <= focused < nwindows {
          SendWindowToWorkspace(windows[focused], index, alive);
        }
    }

    /** Super+Shift+j and Super+Shift+k (xwm.c:280-285, main.c:138-143):
        rotate, then redo the layout. */
    method RotateAndTile(direction: int)
      requires Valid()
      modifies this`focused, this`log, windows
      ensures Valid() && Model() == Workspaces.Retile(Workspaces.RotateStack(old(Model()), direction))
    {
      RotateStack(direction);
      Tile();
    }

    /** Super+h and Super+l (xwm.c:290-295, main.c:146-153): a new master
        factor, then the layout is redone with it. */
    method SetMfact(m: int)
      requires Valid() && MIN_MFACT <= m <= MAX_MFACT
      modifies this`mfact, this`log
      ensures Valid() && Model() == Workspaces.Retile(old(Model()).(mfact := m))
    {
      mfact := m;
      Tile();
    }

    /** One action of the KeyPress chain (xwm.c:280-302, main.c:138-160).
        Spawning a program changes no state of the window manager. */
    method ApplyAction(a: Action)
      requires Valid()
      modifies this`focused, this`nwindows, this`mfact, this`log, windows
      ensures Valid() && Model() == Workspaces.ApplyAction(old(Model()), a)
    {
      match a
      case RotateForward =>
        RotateAndTile(1);
      case RotateBackward =>
        RotateAndTile(-1);
      case SpawnTerminal =>
      case SpawnLauncher =>
      case ShrinkMaster =>
        SetMfact(DecreaseMfact(mfact));
      case GrowMaster =>
        SetMfact(IncreaseMfact(mfact));
      case NextWindow =>
        FocusNext();
      case PrevWindow =>
        FocusPrev();
      case CloseWindow =>
        CloseFocused();
      case NoAction =>
    }

    /** The KeyPress branch of `handle_event` (xwm.c:276-303,
        main.c:134-161): the chain, then always the workspace keys. */
    method HandleKeyPress(super: bool, shift: bool, keysym: int, alive: set<Window>)
      requires Valid()
      modifies this`windows, this`nwindows, this`focused, this`current, this`mfact, this`log, windows, workspaces
      ensures windows == old(windows) || fresh(windows)
      ensures Valid()
      ensures Model() == Workspaces.HandleKeyPress(old(Model()), build, super, shift, keysym, alive)
    {
      ApplyAction(Classify(super, shift, keysym));
      HandleWorkspaceKeys(super, shift, keysym, alive);
    }

    /** `handle_event` (xwm.c:275-322, main.c:133-180). */
    method HandleEvent(e: Event, alive: set<Window>)
      requires Valid()
      modifies this`windows, this`nwindows, this`focused, this`current, this`mfact, this`log, windows, workspaces
      ensures windows == old(windows) || fresh(windows)
      ensures Valid() && Model() == Workspaces.HandleEvent(old(Model()), build, e, alive)
    {
      match e
      case KeyPress(super, shift, keysym) =>
        HandleKeyPress(super, shift, keysym, alive);
      case MapRequest(w) =>
        MapRequest(w);
      case DestroyNotify(w) =>
        RemoveWindow(w);
      case OtherEvent =>
    }

    /** The event loop of `main` (xwm.c:360-364): the events are handled in
        order, each with the windows that exist when it arrives. */
    method Run(events: seq<(Event, set<Window>)>)
      requires Valid()
      modifies this, windows, workspaces
      ensures windows == old(windows) || fresh(windows)
      ensures Valid() && Model() == Workspaces.Run(old(Model()), build, events)
    {
      ghost var goal := Workspaces.Run(Model(), build, events);
      for k := 0 to |events|
        invariant windows == old(windows) || fresh(windows)
        invariant workspaces == old(workspaces)
        invariant Valid()
        invariant Workspaces.Run(Model(), build, events[k..]) == goal
      {
        RunStep(Model(), build, events, k);
        HandleEvent(events[k].0, events[k].1);
      }
      assert events[|events|..] == [];
    }
  }
}
