# xwm: a model of the window list, the tiling layout and the workspaces

xwm is a small tiling window manager for X. It keeps one live list of client
windows with a focus cursor, lays the list out as a master window on the left
and a stack of equally high windows on the right, and keeps nine workspaces,
each a stored window list of its own. Key presses with Super move the focus,
swap the focused window with its neighbour, change the master width, close a
window, switch workspace or send the focused window to another workspace.
MapRequest appends a window and DestroyNotify removes one.

The source comes in two builds. The standalone build is `xwm.c`. The split
build is `main.c` together with `tags.c` and `tags.h`. They do the same
things, except in one place: the standalone workspace key handler ignores a
digit that names the current workspace, and the split one does not. The
model carries a `Build` value and follows each build there.

The project has five modules:

- `WindowList` (window_list.dfy): a window list and its cursor as a value
  `Workspace(windows, focused)`, and what every list operation does to it.
- `Layout` (layout.dfy): the placements `tile` requests, and the master
  factor steps.
- `Keys` (keys.dfy): which operation a key press selects, for each build.
- `Workspaces` (workspaces.dfy): the whole state, meaning the live list, nine
  records, the current index, the master factor and a log of X requests. It
  also gives the effect of every event as a function.
- `Wm` (manager.dfy): the class `Manager`. It holds the globals as fields.
  The live list is an array with a used count `nwindows`, and the records are
  a fixed array. Its methods do the C procedures' work in place: search
  loops, left shifts, swaps and growing the array. Every public procedure
  is proved to change `Model()` exactly as the matching `Workspaces`
  function changes a state; the small step helpers it is built from
  (`DeleteAt`, `RotateLive`, `PushLive`, `DropFromLive`, `StoreLive`,
  `LoadLive`, `StoreInRecord`, `Emit`) are proved against `WindowList`
  functions or single field updates. So the properties proved about the functions also hold for the
  methods.

Requests to the X server (move-resize, map, unmap, set input focus,
destroy) are appended to a ghost log. `window_exists` asks the X server, so
here it is a parameter: the set `alive` of handles that still exist.

## Model

| member | source | states |
|---|---|---|
| WindowList.IndexOf | xwm.c:211-217 | The search loop gives the first index holding `w`. It gives -1 exactly when `w` is not listed, and `w` occurs nowhere before the result. |
| WindowList.Delete | xwm.c:220-223 | The shift loop and decrement give a list one shorter. Entries before the index stay put and later entries move one place left. |
| WindowList.DeleteMultiset | xwm.c:220-223 | Removing by shifting takes out exactly one occurrence of the removed handle. |
| WindowList.Append | xwm.c:314-317 | MapRequest appends the window, keeps the old entries as a prefix, and focuses the new last index. |
| WindowList.Next | xwm.c:196-201 | `focus_next` leaves the list alone. It advances the cursor by one and wraps from the last index to 0. An empty list is unchanged. |
| WindowList.Prev | xwm.c:203-208 | `focus_prev` steps the cursor back by one and wraps from 0 to the last index. The list keeps the cursor invariant. |
| WindowList.PrevUndoesNext | xwm.c:196-208 | `focus_prev` undoes `focus_next`, and `focus_next` undoes `focus_prev`. |
| WindowList.NextCycle | xwm.c:196-201 | Calling `focus_next` as many times as there are windows brings the cursor back to where it started. |
| WindowList.SwapIndex | xwm.c:246-262 | The partner of the swap is the next index (wrapping) for direction 1 and the previous one for -1. It is -1 for any other direction, and otherwise a valid index other than the cursor. |
| WindowList.Swap | xwm.c:264-267 | The swap through `temp` exchanges the two entries and leaves every other entry as it was. |
| WindowList.SwapMultiset | xwm.c:264-267 | A swap keeps every handle, each as often as before. |
| WindowList.Rotated | xwm.c:243-272 | `rotate_stack` changes nothing with fewer than two windows or an unknown direction. Otherwise it swaps the focused window with its neighbour, and the cursor follows the same window. |
| WindowList.RotatedMultiset | xwm.c:243-272 | Rotating is a permutation of the list. |
| WindowList.RotateUndo | xwm.c:243-272 | Rotating forward then backward, or backward then forward, restores both the list and the cursor. |
| WindowList.Removed | xwm.c:211-231 | A handle that is not listed changes nothing. Otherwise its first occurrence is deleted, and the cursor is only clamped into the shorter list (0 when the list is empty). |
| WindowList.RemovedTwice | xwm.c:211-231 | Removing a handle that occurs at most once is idempotent. |
| WindowList.RemovedBeforeFocus | xwm.c:226-231 | When an entry before the cursor is removed, the cursor index stays, so the focus passes to the next window. If the focused window was last, the focus stays on it. |
| WindowList.Closed | xwm.c:236-241 | `close_focused` on a non-empty list is `remove_window` of the focused handle, so the cursor is clamped as in `WindowList.Removed`, and one entry goes. When the focused handle occurs once, exactly that entry goes and the handle is no longer listed. |
| WindowList.SentAway | xwm.c:130-159 | The removal half of a send deletes the first occurrence. The cursor resets to 0 if it was on that entry, goes down by one if it was after it, and stays if it was before it; in the last two cases it keeps naming the same window. An unlisted handle changes nothing. |
| Layout.DecreaseMfact | xwm.c:290-292 | Super+h gives the factor minus one step when that is at least the minimum, and the minimum otherwise. It keeps a factor that was in range in range. |
| Layout.IncreaseMfact | xwm.c:293-295 | Super+l gives the factor plus one step when that is at most the maximum, and the maximum otherwise. It keeps a factor that was in range in range. |
| Layout.CDiv | xwm.c:37 | C integer division truncates toward zero. The quotient brackets the dividend from below for a non-negative dividend and from above for a negative one. |
| Layout.Tile | xwm.c:28-44 | `tile` makes one placement per window. |
| Layout.TileWindows | xwm.c:39-42 | The i-th placement moves the i-th window, so the requests follow list order. |
| Layout.TileStackAt | xwm.c:35-41 | Stack window i sits at x = master width + 2·gap and y = gap + (i-1)·(stack height + gap), with the stack width and stack height. |
| Layout.TileFewWindows | xwm.c:32-33 | No window gives no request. A single window fills the screen less one gap on every side. |
| Layout.TileColumns | xwm.c:35-41 | With two or more windows, the master column, one gap and the stack column exactly fill the usable width. |
| Layout.TileStackSpacing | xwm.c:37-41 | Stack windows share one height, the first starts one gap from the top, and neighbours are exactly one gap apart. |
| Layout.TileStackBottom | xwm.c:37-41 | When the stack fits, the last stack window ends at the bottom margin or less than n-1 pixels above it. |
| Layout.TileDisjoint | xwm.c:28-44 | No two placements overlap. The master is left of every stack window, and each stack window is above the next. |
| Layout.TileThreeWindows | main.c:51-67 | On a 1000x800 screen with gap 10 and factor 0.6, three windows are placed at (10,10,588,780), (608,10,382,385) and (608,405,382,385). |
| Keys.Classify | xwm.c:280-302 | For each binding of the Super key chain, gives the exact key combination that selects it (if and only if). Without Super, and for a digit key, nothing is selected. |
| Keys.WorkspaceKey | xwm.c:166-187 | A digit switches without Shift and sends with Shift, both if and only if Super is held. The standalone build drops a digit naming the current workspace. The index is the digit minus one. |
| Keys.BuildsAgreeOffCurrent | tags.c:120-131 | The split build routes every workspace key as the standalone build does, except that it also acts on the current workspace's digit. |
| Workspaces.Initial | xwm.c:66-72 | At startup the live list and all nine records are empty, the log is empty, and the invariant holds. |
| Workspaces.MapExisting | xwm.c:76-80 | The loop makes at most one request per listed handle, and one for every handle exactly when all of them still exist. |
| Workspaces.UnmapExisting | xwm.c:86-90 | The same count bounds for the unmap loop. |
| Workspaces.MapExistingExactly | xwm.c:74-82 | `map_workspace`'s loop maps exactly the listed windows that still exist, and makes no other request. |
| Workspaces.UnmapExistingExactly | xwm.c:84-91 | `unmap_workspace` unmaps exactly the listed windows that still exist, and makes no other request. |
| Workspaces.MapNewWindow | xwm.c:313-318 | MapRequest logs a map, appends and focuses the window, then logs the layout of the new list. Records, current index and factor are kept. |
| Workspaces.RemoveWindow | xwm.c:210-234 | An unlisted handle leaves the whole state unchanged, with no re-tile. Otherwise the handle is removed from the live list only and the new list is laid out. |
| Workspaces.CloseFocused | xwm.c:236-241 | On an empty list nothing happens. Otherwise the focused window is destroyed, then removed, and the rest is laid out. |
| Workspaces.FocusNext | xwm.c:196-201 | Advances the cursor and gives the input focus to the window it now names. An empty list is a no-op. |
| Workspaces.FocusPrev | xwm.c:203-208 | Steps the cursor back and gives the input focus to the window it now names. An empty list is a no-op. |
| Workspaces.RotateStack | xwm.c:243-272 | Rotates the live list and makes no X request. |
| Workspaces.SwitchToWorkspace | xwm.c:93-109 | A switch keeps the state invariant. |
| Workspaces.SwitchEffect | xwm.c:93-109 | An index outside [0, 9) changes nothing. Otherwise the old record gets the live list and the target record becomes live, with the cursor 0 if it is empty. The other records are untouched. The log gains unmaps of the old windows, maps of the new ones and their layout. |
| Workspaces.SendWindowToWorkspace | xwm.c:111-164 | A send keeps the state invariant. |
| Workspaces.SendEffect | xwm.c:111-164 | A bad index or a vanished window changes nothing. Otherwise the window is unmapped and appended to the target record, whose cursor is kept. It leaves the live list, and the rest is laid out. The other records are untouched. |
| Workspaces.HandleWorkspaceKeys | xwm.c:166-187 | Without Super or a digit nothing happens. In the standalone build the current workspace's digit does nothing. A send with no live window does nothing. |
| Workspaces.ApplyAction | xwm.c:280-302 | No binding of the chain touches the records or the current workspace. Only Super+h and Super+l change the factor. |
| Workspaces.HandleKeyPress | xwm.c:276-303 | A digit key only reaches the workspace handler. Every other key only reaches the chain. |
| Workspaces.HandleEvent | xwm.c:275-322 | Every event keeps the state invariant. |
| Workspaces.Run | xwm.c:360-364 | The event loop keeps the invariant across any sequence of events. |
| Workspaces.RunStep | xwm.c:361-364 | One turn of the loop handles the next event, then the loop goes on with the rest. |
| Workspaces.SwitchAwayAndBack | xwm.c:93-109 | Switching away and back restores the live list and its cursor. The visited workspace keeps what it had become. |
| Workspaces.SendThenSwitch | xwm.c:111-164 | After a send, switching to the target makes the window live again, as the last entry. A window listed once is gone from the workspace it left. |
| Workspaces.SwitchExample | xwm.c:93-109 | From workspace 0 holding E to workspace 2 holding D: E is unmapped, D is mapped and laid out full screen, and D is the focused live window. |
| Workspaces.StandaloneIgnoresCurrent | xwm.c:173-178 | In the standalone build, a digit naming the current workspace leaves the whole state unchanged, with or without Shift. |
| Workspaces.SplitSendToCurrentDropsWindow | tags.c:64-131 | In the split build, from any state, Super+Shift with the current digit unmaps the focused window and takes it out of the live list. This holds when the window exists, is listed once and is listed in no other record. After a switch to any other workspace, the window is listed nowhere. |
| Workspaces.SendToCurrent | tags.c:64-117 | A send to the current workspace hides the window and takes it out of the live list. The current record lists it, and no other record does. |
| Workspaces.SwitchLosesWindow | tags.c:46-62 | A window that is neither live nor in any record but the current one is listed nowhere after a switch to another workspace. |
| Workspaces.SplitSendKey | tags.c:126-130 | In the split build, Super+Shift with a digit sends the focused window to that workspace, the current one included. |
| Workspaces.SplitSwitchKey | tags.c:123-125 | In the split build, Super with a digit switches to that workspace. |
| Workspaces.SplitSendToCurrentExample | tags.c:64-131 | The smallest case: one window on workspace 0, nothing stored, then a switch to workspace 1. The window ends up listed nowhere. |
| Wm.FindFirst | xwm.c:211-217 | The array search loop returns the index of the first occurrence among the used entries, or -1. |
| Wm.ShiftLeft | xwm.c:220-222 | The in-place shift loop leaves the used prefix equal to the list with that entry deleted. Slots from the old last one on are untouched. |
| Wm.Manager.constructor | xwm.c:20-22 | The globals start as the empty live list and nine empty records. |
| Wm.Manager.InitializeWorkspaces | tags.c:19-25 | Every record becomes empty with cursor 0. |
| Wm.Manager.Tile | xwm.c:28-44 | Appends the placements of the live list to the log. |
| Wm.Manager.FocusNext | xwm.c:196-201 | Changes the state as `Workspaces.FocusNext`. |
| Wm.Manager.FocusPrev | xwm.c:203-208 | Changes the state as `Workspaces.FocusPrev`. |
| Wm.Manager.DeleteAt | xwm.c:220-223 | The shift and decrement leave the used part equal to the list with the entry deleted. |
| Wm.Manager.RemoveFromLive | xwm.c:211-231 | Reports whether the handle was live and leaves the live list as `WindowList.Removed` gives it. |
| Wm.Manager.RemoveWindow | xwm.c:210-234 | Changes the state as `Workspaces.RemoveWindow`. |
| Wm.Manager.CloseFocused | xwm.c:236-241 | Changes the state as `Workspaces.CloseFocused`. |
| Wm.Manager.RotateLive | xwm.c:244-271 | The in-place swap leaves the live list as `WindowList.Rotated` gives it. |
| Wm.Manager.RotateStack | xwm.c:243-272 | Changes the state as `Workspaces.RotateStack`. |
| Wm.Manager.PushLive | xwm.c:314-317 | Grows the array when it is full and leaves the live list as `WindowList.Append` gives it. |
| Wm.Manager.MapRequest | xwm.c:313-318 | Changes the state as `Workspaces.MapNewWindow`. |
| Wm.Manager.UnmapWorkspace | xwm.c:84-91 | Logs the unmaps of `Workspaces.UnmapExisting` and changes nothing else. |
| Wm.Manager.MapWorkspace | xwm.c:74-82 | Logs the maps of `Workspaces.MapExisting`, then the layout of the live list. |
| Wm.Manager.StoreLive | xwm.c:96-99 | The current record becomes the live list. |
| Wm.Manager.LoadLive | xwm.c:104-106 | The live list becomes the current record, with cursor 0 when it is empty. |
| Wm.Manager.SwitchToWorkspace | xwm.c:93-109 | Changes the state as `Workspaces.SwitchToWorkspace`. |
| Wm.Manager.DropFromLive | xwm.c:130-159 | The search, shift and focus update leave the live list as `WindowList.SentAway` gives it. |
| Wm.Manager.SendAway | xwm.c:130-159 | The live list becomes `WindowList.SentAway` of itself, and nothing else changes. |
| Wm.Manager.StoreInRecord | xwm.c:120-127 | The target record gets the window appended, and its cursor is kept. |
| Wm.Manager.SendWindowToWorkspace | xwm.c:111-164 | Changes the state as `Workspaces.SendWindowToWorkspace`. |
| Wm.Manager.HandleWorkspaceKeys | xwm.c:166-187 | Changes the state as `Workspaces.HandleWorkspaceKeys` for the manager's build. |
| Wm.Manager.RotateAndTile | xwm.c:280-285 | Rotates the live list, then appends its layout to the log. |
| Wm.Manager.SetMfact | xwm.c:290-295 | Sets the factor, then appends the new layout to the log. |
| Wm.Manager.ApplyAction | xwm.c:280-302 | Changes the state as `Workspaces.ApplyAction`. |
| Wm.Manager.HandleKeyPress | xwm.c:276-303 | Changes the state as `Workspaces.HandleKeyPress`. |
| Wm.Manager.HandleEvent | xwm.c:275-322 | Changes the state as `Workspaces.HandleEvent`, and either keeps the live array or replaces it with a fresh one. |
| Wm.Manager.Run | xwm.c:360-364 | Handling the events one by one in a loop changes the state as `Workspaces.Run`. |

Each function in the split build matches the one cited in `xwm.c`:

- `tile`: xwm.c:28-44 and main.c:51-67.
- `focus_next` and `focus_prev`: xwm.c:196-208 and main.c:37-49.
- `remove_window`: xwm.c:210-234 and main.c:69-93.
- `close_focused`: xwm.c:236-241 and main.c:95-100.
- `rotate_stack`: xwm.c:243-272 and main.c:102-131.
- `handle_event`: xwm.c:275-322 and main.c:133-180.
- The workspace procedures, from `initialize_workspaces` to
  `send_window_to_workspace`: xwm.c:66-164 and tags.c:19-117.

### Rules the code follows that are easy to misread

- Removing an entry before the cursor leaves the cursor index as it is,
  so the focus passes to the next window (xwm.c:226-231). With the focus
  at index 2 of 4, removing index 0 leaves the cursor at 2.
  `WindowList.Removed` and `WindowList.RemovedBeforeFocus` state this.
- Sending a window away deletes its first occurrence. Removing the entry
  under the cursor resets the cursor to 0. With a repeated handle, that
  first occurrence can be an earlier entry than the focused one. The cursor
  moves down by one when the deleted entry was before it and stays when the
  deleted entry was after it, so the same window stays focused
  (xwm.c:155-159). `WindowList.SentAway` states all three cases.
- The stack column starts at x = master width + 2·gap and is
  usable width − master width − gap wide (xwm.c:35-41). On a 1000x800
  screen with gap 10 and factor 0.6, that is x = 608 and width 382.
  `Layout.TileThreeWindows` states these numbers.

## Left out

- X server calls are not executed. Each request is appended to a log of
  `Request` values in the order the code makes them.
- `window_exists` asks the X server. Here it is membership in the `alive`
  set passed to each operation that asks.
- `spawn` (fork and `system`): the Super+Return and Super+p bindings change
  nothing in the model.
- Startup and shutdown are not modelled: `XOpenDisplay` and its failure,
  `XSelectInput`, the key grabs, and freeing the lists after the loop.
  The key code to keysym translation (`XkbKeycodeToKeysym`) is not modelled
  either: events carry a keysym. The endless event loop is
  `Wm.Manager.Run` over a finite sequence of events.
- The master factor is a float in the code and a whole percent here. The
  default is 60, the step 5 and the bounds 10 and 90. So the master width is
  `(percent × width) / 100` truncated, and it can differ by a pixel from the
  float product where that product is not exact. Rounding drift from
  repeated float steps is not modelled either.
- Allocation failure is not modelled: the early returns after a failed
  `realloc` when a window is appended to a record (xwm.c:121-125) and after
  shrinking the live list (xwm.c:147-151, tags.c:100-104). When the last
  live window is sent away, `realloc` to size zero frees the block and may
  return NULL (glibc does). The code then returns before `windows` is
  reassigned, so `windows` keeps the freed pointer, and the next MapRequest
  reallocates freed memory (xwm.c:314, main.c:172). The C behaviour from
  there on is undefined. The model shrinks the list to empty and later
  appends normally, so it does not capture that path.
- The live list is never shrunk: the array keeps its capacity and only
  `nwindows` decreases. Growth on MapRequest gives a fresh array.
- Pointer sharing is not modelled. After a switch, the C live array and the
  current record point at the same buffer. Later in-place changes to the
  live list then also show through the record, whose stored count goes
  stale, and a `realloc` can leave the record dangling. The model keeps the
  record as the value stored at the switch. Every path that reads it again,
  the next switch away, first overwrites it with the live list. The split
  build's send to the current workspace is the exception: it appends to
  that stale record. `Workspaces.SplitSendToCurrentDropsWindow` states what
  happens with the record taken as a value. That agrees with the C code when
  the current record holds no buffer, as before the first switch
  (`Workspaces.SplitSendToCurrentExample`). After a switch, the C `realloc`
  acts on the buffer shared with the live list, and the model does not
  capture that.
- `int` overflow in the layout arithmetic and in `nwindows` is not
  modelled: integers are unbounded.
- `gap`, the screen size, the master factor and the initial workspace index
  come from the configuration and the display. They are parameters
  (`Geometry`, and `mfact` and `current` of `Manager.constructor`); the
  split build starts the master factor at 0.6 (main.c:18), which is 60 in
  the model's percent.
- Workspaces.SwitchToWorkspace: its own contract states only the
  invariant. The full effect is stated by `Workspaces.SwitchEffect`.
- Workspaces.SendWindowToWorkspace: its own contract states only the
  invariant. The full effect is stated by `Workspaces.SendEffect`.
- Workspaces.HandleEvent: its own contract states only the invariant. The
  effect of each event is the contract of the function it dispatches to.
- Layout.Tile: its own contract states only the number of placements. The
  positions are stated by `Layout.TileWindows`, `Layout.TileStackAt` and
  the other `Tile` lemmas.
