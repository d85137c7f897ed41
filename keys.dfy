/**
  Key routing: which operation a KeyPress selects.

  A key event carries a keysym and a modifier mask; only the Super (Mod4)
  and Shift bits are ever tested, so they are two booleans here. Both
  builds route the same fixed chain in `handle_event` and then always run
  `handle_workspace_keys`, which differs between the standalone build
  (xwm.c) and the split build (main.c with tags.c).
*/
module Keys {

  /** Keysyms of the X11 keysym table that the bindings use. */
  const XK_Return := 0xff0d
  const XK_1 := 0x31
  const XK_9 := 0x39
  const XK_h := 0x68
  const XK_j := 0x6a
  const XK_k := 0x6b
  const XK_l := 0x6c
  const XK_p := 0x70
  const XK_q := 0x71

  /** Standalone: xwm.c. Split: main.c together with tags.c. */
  datatype Build = Standalone | Split

  /** The operations of the `handle_event` KeyPress chain. */
  datatype Action =
    | RotateForward | RotateBackward
    | SpawnTerminal | SpawnLauncher
    | ShrinkMaster | GrowMaster
    | NextWindow | PrevWindow
    | CloseWindow
    | NoAction

  /** The KeyPress chain of `handle_event` (xwm.c:280-302, main.c:138-160):
      the first matching test wins. The split build tests `h` before `p`;
      the keysyms differ, so the order makes no difference. */
  function Classify(super: bool, shift: bool, keysym: int): (a: Action)
    ensures !super ==> a == NoAction
    ensures a == RotateForward <==> super && shift && keysym == XK_j
    ensures a == RotateBackward <==> super && shift && keysym == XK_k
    ensures a == NextWindow <==> super && !shift && keysym == XK_j
    ensures a == PrevWindow <==> super && !shift && keysym == XK_k
    ensures a == SpawnTerminal <==> super && keysym == XK_Return
    ensures a == SpawnLauncher <==> super && keysym == XK_p
    ensures a == ShrinkMaster <==> super && keysym == XK_h
    ensures a == GrowMaster <==> super && keysym == XK_l
    ensures a == CloseWindow <==> super && keysym == XK_q
    ensures XK_1 <= keysym <= XK_9 ==> a == NoAction
  {
    if super && shift && keysym == XK_j then RotateForward
    else if super && shift && keysym == XK_k then RotateBackward
    else if super && keysym == XK_Return then SpawnTerminal
    else if super && keysym == XK_p then SpawnLauncher
    else if super && keysym == XK_h then ShrinkMaster
    else if super && keysym == XK_l then GrowMaster
    else if super && keysym == XK_j then NextWindow
    else if super && keysym == XK_k then PrevWindow
    else if super && keysym == XK_q then CloseWindow
    else NoAction
  }

  /** What `handle_workspace_keys` does with a key. */
  datatype WorkspaceAction = NoWorkspaceAction | SwitchTo(index: int) | SendTo(index: int)

  /** The digit keys 1..9 name workspaces 0..8. */
  predicate IsDigit(keysym: int) { XK_1 <= keysym <= XK_9 }

  /** `handle_workspace_keys`. The standalone build (xwm.c:166-187) ignores a
      digit naming the current workspace; the split build (tags.c:120-131)
      has no such test. */
  function WorkspaceKey(build: Build, current: int, super: bool, shift: bool, keysym: int): (a: WorkspaceAction)
    ensures a != NoWorkspaceAction ==>
      super && IsDigit(keysym) && a.index == keysym - XK_1 && 0 <= a.index < 9
    ensures a.SwitchTo? <==>
      super && !shift && IsDigit(keysym) && (build == Standalone ==> keysym - XK_1 != current)
    ensures a.SendTo? <==>
      super && shift && IsDigit(keysym) && (build == Standalone ==> keysym - XK_1 != current)
  {
    match build
    case Standalone =>
      if keysym < XK_1 || keysym > XK_9 then NoWorkspaceAction
      else
        var index := keysym - XK_1;
        if index == current then NoWorkspaceAction
        else if super && !shift then SwitchTo(index)
        else if super && shift then SendTo(index)
        else NoWorkspaceAction
    case Split =>
      if super && !shift && keysym >= XK_1 && keysym <= XK_9 then SwitchTo(keysym - XK_1)
      else if super && shift && keysym >= XK_1 && keysym <= XK_9 then SendTo(keysym - XK_1)
      else NoWorkspaceAction
  }

  /** The two builds route every workspace key alike, except that the
      standalone build drops a key naming the current workspace. */
  lemma BuildsAgreeOffCurrent(current: int, super: bool, shift: bool, keysym: int)
    ensures var split := WorkspaceKey(Split, current, super, shift, keysym);
      WorkspaceKey(Standalone, current, super, shift, keysym) ==
        if split != NoWorkspaceAction && split.index == current then NoWorkspaceAction else split
  {
  }
}
