/**
  The window list of one workspace and its focus cursor.

  In xwm.c and main.c the live list is the three globals `windows`,
  `nwindows` and `focused_window`; tags.h gives a workspace record the same
  three fields. Here a list is the value `Workspace(windows, focused)`, with
  `nwindows` being `|windows|`. The functions below say what each operation
  of the window manager does to such a value; the class in manager.dfy
  performs the same operations in place on an array and is proved against
  them.
*/
module WindowList {

  /** An X window handle (an XID), opaque to the window manager. */
  type Window = nat

  /** A window list with its focus cursor (tags.h:12-16). */
  datatype Workspace = Workspace(windows: seq<Window>, focused: int)

  /** The record `initialize_workspaces` gives every workspace. */
  const Empty: Workspace := Workspace([], 0)

  /** The index invariant: the cursor is a valid index of a non-empty list
      and 0 for an empty one. */
  predicate Valid(ws: Workspace)
  {
    if |ws.windows| == 0 then ws.focused == 0 else 0 <= ws.focused < |ws.windows|
  }

  function Min(a: int, b: int): int { if a < b then a else b }

  function Max(a: int, b: int): int { if a < b then b else a }

  /** Index of the first occurrence of `w`, or -1: the search loop that opens
      `remove_window` and the removal half of `send_window_to_workspace`. */
  function IndexOf(s: seq<Window>, w: Window): (i: int)
    ensures -1 <= i < |s|
    ensures i == -1 <==> w !in s
    ensures 0 <= i ==> s[i] == w && w !in s[..i]
  {
    if |s| == 0 then -1
    else if s[0] == w then 0
    else
      var j := IndexOf(s[1..], w);
      if j == -1 then -1
      else
        assert s[..j + 1] == [s[0]] + s[1..][..j];
        j + 1
  }

  /** The sequence left after the left-shift loop closes the gap at `i`. */
  function Delete(s: seq<Window>, i: int): (r: seq<Window>)
    requires 0 <= i < |s|
    ensures |r| == |s| - 1
    ensures forall k :: 0 <= k < i ==> r[k] == s[k]
    ensures forall k :: i <= k < |r| ==> r[k] == s[k + 1]
  {
    s[..i] + s[i + 1..]
  }

  /** Deleting removes exactly one occurrence of the deleted value. */
  lemma DeleteMultiset(s: seq<Window>, i: int)
    requires 0 <= i < |s|
    ensures multiset(Delete(s, i)) == multiset(s) - multiset{s[i]}
  {
    assert s == s[..i] + [s[i]] + s[i + 1..];
  }

  /** MapRequest: the new window goes last and takes the focus. */
  function Append(ws: Workspace, w: Window): (r: Workspace)
    ensures Valid(r) && |r.windows| == |ws.windows| + 1
    ensures r.windows[r.focused] == w && r.focused == |ws.windows|
    ensures r.windows[..|ws.windows|] == ws.windows
  {
    assert (ws.windows + [w])[..|ws.windows|] == ws.windows;
    Workspace(ws.windows + [w], |ws.windows|)
  }

  /** `focus_next`: the cursor advances modulo the list length. */
  function Next(ws: Workspace): (r: Workspace)
    requires Valid(ws)
    ensures Valid(r) && r.windows == ws.windows
    ensures |ws.windows| == 0 ==> r == ws
    ensures |ws.windows| > 0 ==>
      r.focused == if ws.focused == |ws.windows| - 1 then 0 else ws.focused + 1
  {
    var n := |ws.windows|;
    if n > 0 then
      var f := ws.focused;
      if f == n - 1 then ModUnique(f + 1, n, 1, 0); ws.(focused := (f + 1) % n)
      else ModUnique(f + 1, n, 0, f + 1); ws.(focused := (f + 1) % n)
    else ws
  }

  /** `focus_prev`: the cursor retreats modulo the list length. */
  function Prev(ws: Workspace): (r: Workspace)
    requires Valid(ws)
    ensures Valid(r) && r.windows == ws.windows
    ensures |ws.windows| == 0 ==> r == ws
    ensures |ws.windows| > 0 ==>
      r.focused == if ws.focused == 0 then |ws.windows| - 1 else ws.focused - 1
  {
    var n := |ws.windows|;
    if n > 0 then
      var f := ws.focused;
      if f == 0 then ModUnique(f - 1 + n, n, 0, n - 1); ws.(focused := (f - 1 + n) % n)
      else ModUnique(f - 1 + n, n, 1, f - 1); ws.(focused := (f - 1 + n) % n)
    else ws
  }

  lemma PrevUndoesNext(ws: Workspace)
    requires Valid(ws)
    ensures Prev(Next(ws)) == ws && Next(Prev(ws)) == ws
  {
  }

  /** `focus_next` applied `k` times. */
  function NextTimes(ws: Workspace, k: nat): (r: Workspace)
    requires Valid(ws)
    ensures Valid(r) && r.windows == ws.windows
  {
    if k == 0 then ws else Next(NextTimes(ws, k - 1))
  }

  lemma MulAtLeast(d: int, n: int)
    requires d >= 1 && n > 0
    ensures d * n >= n
  {
  }

  /** Euclidean division has a unique quotient and remainder. */
  lemma {:induction false} ModUnique(a: int, n: int, q: int, r: int)
    requires n > 0 && a == q * n + r && 0 <= r < n
    ensures a % n == r
  {
    var q', r' := a / n, a % n;
    var d := q - q';
    assert d * n == q * n - q' * n;
    assert d * n == r' - r;
    if d >= 1 {
      MulAtLeast(d, n);
    } else if d <= -1 {
      MulAtLeast(-d, n);
    }
  }

  lemma {:induction false} ModSucc(a: int, n: int)
    requires n > 0
    ensures (if a % n == n - 1 then 0 else a % n + 1) == (a + 1) % n
  {
    var q := a / n;
    if a % n == n - 1 {
      ModUnique(a + 1, n, q + 1, 0);
    } else {
      ModUnique(a + 1, n, q, a % n + 1);
    }
  }

  lemma {:induction false} NextTimesFocus(ws: Workspace, k: nat)
    requires Valid(ws) && |ws.windows| > 0
    ensures NextTimes(ws, k).focused == (ws.focused + k) % |ws.windows|
  {
    var n := |ws.windows|;
    if k == 0 {
      ModUnique(ws.focused, n, 0, ws.focused);
    } else {
      NextTimesFocus(ws, k - 1);
      ModSucc(ws.focused + k - 1, n);
    }
  }

  /** `focus_next` is cyclic: as many steps as there are windows bring the
      cursor back to where it started. */
  lemma {:induction false} NextCycle(ws: Workspace)
    requires Valid(ws)
    ensures NextTimes(ws, |ws.windows|) == ws
  {
    var n := |ws.windows|;
    if n > 0 {
      NextTimesFocus(ws, n);
      ModUnique(ws.focused + n, n, 1, ws.focused);
    }
  }

  /** The neighbour `rotate_stack` swaps with, or -1 for an unknown direction. */
  function SwapIndex(n: int, f: int, direction: int): (s: int)
    requires 2 <= n && 0 <= f < n
    ensures direction == 1 ==> s == (f + 1) % n
    ensures direction == -1 ==> s == (f - 1 + n) % n
    ensures direction != 1 && direction != -1 ==> s == -1
    ensures s != -1 ==> 0 <= s < n && s != f
  {
    if direction == 1 then
      if f == n - 1 then ModUnique(f + 1, n, 1, 0); 0
      else ModUnique(f + 1, n, 0, f + 1); f + 1
    else if direction == -1 then
      if f == 0 then ModUnique(f - 1 + n, n, 0, n - 1); n - 1
      else ModUnique(f - 1 + n, n, 1, f - 1); f - 1
    else -1
  }

  /** `s` with the entries at `i` and `j` exchanged. */
  function Swap(s: seq<Window>, i: int, j: int): (r: seq<Window>)
    requires 0 <= i < |s| && 0 <= j < |s|
    ensures |r| == |s| && r[i] == s[j] && r[j] == s[i]
    ensures forall k :: 0 <= k < |s| && k != i && k != j ==> r[k] == s[k]
  {
    s[i := s[j]][j := s[i]]
  }

  /** A swap is a permutation. */
  lemma SwapMultiset(s: seq<Window>, i: int, j: int)
    requires 0 <= i < |s| && 0 <= j < |s|
    ensures multiset(Swap(s, i, j)) == multiset(s)
  {
    var once := s[i := s[j]];
    assert multiset(once) == multiset(s) - multiset{s[i]} + multiset{s[j]};
    assert Swap(s, i, j) == once[j := s[i]];
  }

  /** `rotate_stack(direction)`: the focused window trades places with its
      wrap-around neighbour and the cursor follows it. */
  function Rotated(ws: Workspace, direction: int): (r: Workspace)
    requires Valid(ws)
    ensures Valid(r) && |r.windows| == |ws.windows|
    ensures |ws.windows| < 2 || (direction != 1 && direction != -1) ==> r == ws
    ensures |ws.windows| > 0 ==> r.windows[r.focused] == ws.windows[ws.focused]
    ensures |ws.windows| >= 2 && (direction == 1 || direction == -1) ==>
      && r.focused == SwapIndex(|ws.windows|, ws.focused, direction)
      && r.windows == Swap(ws.windows, ws.focused, r.focused)
  {
    var n := |ws.windows|;
    if n < 2 then ws
    else
      var s := SwapIndex(n, ws.focused, direction);
      if s == -1 then ws
      else Workspace(Swap(ws.windows, ws.focused, s), s)
  }

  /** Rotation keeps every window, each as often as before. */
  lemma RotatedMultiset(ws: Workspace, direction: int)
    requires Valid(ws)
    ensures multiset(Rotated(ws, direction).windows) == multiset(ws.windows)
  {
    if |ws.windows| >= 2 && SwapIndex(|ws.windows|, ws.focused, direction) != -1 {
      SwapMultiset(ws.windows, ws.focused, SwapIndex(|ws.windows|, ws.focused, direction));
    }
  }

  lemma SwapBack(s: seq<Window>, i: int, j: int)
    requires 0 <= i < |s| && 0 <= j < |s|
    ensures Swap(Swap(s, i, j), j, i) == s
  {
    var t := Swap(Swap(s, i, j), j, i);
    assert forall k :: 0 <= k < |s| ==> t[k] == s[k];
  }

  /** Rotating forward and then backward, or the other way round, restores
      both the list and the cursor. */
  lemma RotateUndo(ws: Workspace)
    requires Valid(ws)
    ensures Rotated(Rotated(ws, 1), -1) == ws
    ensures Rotated(Rotated(ws, -1), 1) == ws
  {
    var n := |ws.windows|;
    if n >= 2 {
      var f := ws.focused;
      var a := Rotated(ws, 1);
      var s := SwapIndex(n, f, 1);
      assert SwapIndex(n, s, -1) == f;
      SwapBack(ws.windows, f, s);
      var b := Rotated(ws, -1);
      var t := SwapIndex(n, f, -1);
      assert SwapIndex(n, t, 1) == f;
      SwapBack(ws.windows, f, t);
    }
  }

  /** `remove_window(w)`: the first occurrence goes, the rest keeps its order,
      and the cursor is only clamped into the shorter list. */
  function Removed(ws: Workspace, w: Window): (r: Workspace)
    requires Valid(ws)
    ensures Valid(r)
    ensures w !in ws.windows ==> r == ws
    ensures w in ws.windows ==>
      && r.windows == Delete(ws.windows, IndexOf(ws.windows, w))
      && r.focused == Min(ws.focused, Max(|r.windows| - 1, 0))
  {
    var i := IndexOf(ws.windows, w);
    if i == -1 then ws
    else
      var rest := Delete(ws.windows, i);
      var f := if ws.focused >= |rest| && |rest| > 0 then |rest| - 1
               else if |rest| == 0 then 0
               else ws.focused;
      Workspace(rest, f)
  }

  /** Removing a window that occurs at most once is idempotent. */
  lemma RemovedTwice(ws: Workspace, w: Window)
    requires Valid(ws) && multiset(ws.windows)[w] <= 1
    ensures Removed(Removed(ws, w), w) == Removed(ws, w)
  {
    if w in ws.windows {
      var r := Removed(ws, w);
      DeleteMultiset(ws.windows, IndexOf(ws.windows, w));
      assert multiset(r.windows)[w] == 0;
    }
  }

  /** Removing an entry before the cursor does not move the cursor, so the
      focus passes to the window after the one that had it, unless that one
      was last. */
  lemma RemovedBeforeFocus(ws: Workspace, w: Window)
    requires Valid(ws) && w in ws.windows && IndexOf(ws.windows, w) < ws.focused
    ensures Removed(ws, w).focused == Min(ws.focused, |ws.windows| - 2)
    ensures ws.focused < |ws.windows| - 1 ==>
      Removed(ws, w).windows[ws.focused] == ws.windows[ws.focused + 1]
    ensures ws.focused == |ws.windows| - 1 ==>
      Removed(ws, w).windows[Removed(ws, w).focused] == ws.windows[ws.focused]
  {
  }

  /** A value at two different indices occurs at least twice. */
  lemma CountTwo(s: seq<Window>, i: int, j: int)
    requires 0 <= i < j < |s| && s[i] == s[j]
    ensures multiset(s)[s[i]] >= 2
  {
    assert s == s[..j] + [s[j]] + s[j + 1..];
    assert s[i] in multiset(s[..j]);
  }

  /** `close_focused`: the focused handle is removed through `remove_window`. */
  function Closed(ws: Workspace): (r: Workspace)
    requires Valid(ws)
    ensures Valid(r)
    ensures |ws.windows| == 0 ==> r == ws
    ensures |ws.windows| > 0 ==> r == Removed(ws, ws.windows[ws.focused])
    ensures |ws.windows| > 0 ==> |r.windows| == |ws.windows| - 1
    ensures |ws.windows| > 0 && multiset(ws.windows)[ws.windows[ws.focused]] == 1 ==>
      && r.windows == Delete(ws.windows, ws.focused)
      && ws.windows[ws.focused] !in r.windows
  {
    if |ws.windows| > 0 then
      var w := ws.windows[ws.focused];
      var i := IndexOf(ws.windows, w);
      var r := Removed(ws, w);
      assert multiset(ws.windows)[w] == 1 ==> i == ws.focused && w !in r.windows by {
        if multiset(ws.windows)[w] == 1 {
          if i < ws.focused {
            CountTwo(ws.windows, i, ws.focused);
            assert false;
          }
          DeleteMultiset(ws.windows, i);
          assert multiset(r.windows)[w] == 0;
        }
      }
      r
    else ws
  }

  /** The removal half of `send_window_to_workspace`: the first occurrence
      goes; the cursor resets to 0 when it pointed at the removed entry,
      moves down by one when it was after it and stays when it was before
      it, so it keeps pointing at the same window. */
  function SentAway(ws: Workspace, w: Window): (r: Workspace)
    requires Valid(ws)
    ensures Valid(r)
    ensures w !in ws.windows ==> r == ws
    ensures w in ws.windows ==> r.windows == Delete(ws.windows, IndexOf(ws.windows, w))
    ensures w in ws.windows && ws.focused == IndexOf(ws.windows, w) ==> r.focused == 0
    ensures w in ws.windows && ws.focused != IndexOf(ws.windows, w) ==>
      r.windows[r.focused] == ws.windows[ws.focused]
    ensures w in ws.windows && ws.focused > IndexOf(ws.windows, w) ==> r.focused == ws.focused - 1
    ensures w in ws.windows && ws.focused < IndexOf(ws.windows, w) ==> r.focused == ws.focused
  {
    var i := IndexOf(ws.windows, w);
    if i == -1 then ws
    else
      var rest := Delete(ws.windows, i);
      var f := if ws.focused == i && |rest| > 0 then 0
               else if ws.focused > i then ws.focused - 1
               else ws.focused;
      Workspace(rest, f)
  }
}
