/**
 * The open-window registry of the desktop page as pure values: the window record, the
 * `map`/`filter`/`sort` rewrites each handler applies to the window list, the invariants
 * the registry keeps, and the lemmas that the rewrites keep them.
 */
module Windows {
  import opened Wrappers
  import opened Geometry

  /** Window content: an opaque rendered node, or the empty fragment `<></>` a minimized window holds. */
  datatype View<N> = EmptyFragment | Rendered(node: N)

  /** One open application window (`WindowData`). */
  datatype Window<N> = Window(
    id: string,
    title: string,
    icon: Option<N>,
    content: View<N>,
    position: Point,
    size: Size,
    zIndex: int,
    isActive: bool)

  /** The seed of the stacking counter. */
  const InitialZIndex: int := 10
  /** The size of a window launched without an explicit size. */
  const DefaultSize: Size := Size(720, 480)
  /** The size a minimized window is collapsed to. */
  const MinimizedSize: Size := Size(0, 0)
  const CascadeBase: int := 100
  const CascadeStep: int := 30
  const CascadeSlots: nat := 5

  /** Initial position of a window launched while `openCount` windows are already open. */
  function CascadeOffset(openCount: nat): (p: Point)
    ensures p.x == p.y
    ensures CascadeBase <= p.x <= CascadeBase + (CascadeSlots - 1) * CascadeStep
    ensures openCount < CascadeSlots ==> p.x == CascadeBase + openCount * CascadeStep
  {
    var d := CascadeBase + (openCount % CascadeSlots) * CascadeStep;
    Point(d, d)
  }

  /** The cascade cycles: the sixth window opens where the first did. */
  lemma CascadeRepeatsEveryFive(openCount: nat)
    ensures CascadeOffset(openCount + CascadeSlots) == CascadeOffset(openCount)
  {
  }

  // ---------------------------------------------------------------------------------------
  // Registry invariants

  predicate HasId<N>(ws: seq<Window<N>>, id: string) {
    exists i :: 0 <= i < |ws| && ws[i].id == id
  }

  /** No two open windows share an id. */
  predicate UniqueIds<N>(ws: seq<Window<N>>) {
    forall i, j :: 0 <= i < j < |ws| ==> ws[i].id != ws[j].id
  }

  /** Paint order: ascending z-index. */
  predicate SortedByZ<N>(ws: seq<Window<N>>) {
    forall i, j :: 0 <= i < j < |ws| ==> ws[i].zIndex <= ws[j].zIndex
  }

  /** Ascending and pairwise distinct z-indices. */
  predicate StrictlySortedByZ<N>(ws: seq<Window<N>>) {
    forall i, j :: 0 <= i < j < |ws| ==> ws[i].zIndex < ws[j].zIndex
  }

  /** Every z-index already issued is at most the counter. */
  predicate AllAtMost<N>(ws: seq<Window<N>>, bound: int) {
    forall i :: 0 <= i < |ws| ==> ws[i].zIndex <= bound
  }

  /** A window is flagged active exactly when it is the one `activeWindowId` names. */
  predicate ActiveAgrees<N>(ws: seq<Window<N>>, active: Option<string>) {
    forall i :: 0 <= i < |ws| ==> (ws[i].isActive <==> active == Some(ws[i].id))
  }

  /** The registry invariant over `openWindows`, `activeWindowId` and `nextZIndex`. */
  predicate RegistryInvariant<N>(ws: seq<Window<N>>, active: Option<string>, nextZ: int) {
    UniqueIds(ws) && StrictlySortedByZ(ws) && AllAtMost(ws, nextZ) && ActiveAgrees(ws, active)
  }

  /** Under the invariant at most one window is active. */
  lemma AtMostOneActive<N>(ws: seq<Window<N>>, active: Option<string>, nextZ: int, i: nat, j: nat)
    requires RegistryInvariant(ws, active, nextZ)
    requires i < |ws| && j < |ws| && ws[i].isActive && ws[j].isActive
    ensures i == j
  {
  }

  // ---------------------------------------------------------------------------------------
  // The rewrites applied by the handlers

  /** Every window deactivated; order and all other fields kept. */
  function Deactivated<N>(ws: seq<Window<N>>): seq<Window<N>> {
    seq(|ws|, i requires 0 <= i < |ws| => ws[i].(isActive := false))
  }

  /** The windows with id `id` made active at stacking level `z`; every other window deactivated; order kept. */
  function Raised<N>(ws: seq<Window<N>>, id: string, z: int): seq<Window<N>> {
    seq(|ws|, i requires 0 <= i < |ws| =>
      if ws[i].id == id then ws[i].(isActive := true, zIndex := z) else ws[i].(isActive := false))
  }

  /** The windows with id `id` emptied, shrunk to 0x0 and deactivated; every other window untouched. */
  function Minimized<N>(ws: seq<Window<N>>, id: string): seq<Window<N>> {
    seq(|ws|, i requires 0 <= i < |ws| =>
      if ws[i].id == id then ws[i].(content := EmptyFragment, size := MinimizedSize, isActive := false)
      else ws[i])
  }

  /** The windows whose id is not `id`, in their original order. */
  function Without<N>(ws: seq<Window<N>>, id: string): (r: seq<Window<N>>)
    ensures |r| <= |ws|
    ensures forall i :: 0 <= i < |r| ==> r[i].id != id
    decreases |ws|
  {
    if ws == [] then []
    else if ws[0].id == id then Without(ws[1..], id)
    else [ws[0]] + Without(ws[1..], id)
  }

  /** `ws` with the element at index `k` taken out. */
  function RemoveAt<T>(ws: seq<T>, k: nat): seq<T>
    requires k < |ws|
  {
    ws[..k] + ws[k + 1..]
  }

  /**
   * Inserting `w` into an already sorted list after every element whose z-index is not
   * larger: one step of a stable sort by ascending z-index.
   */
  function InsertByZ<N>(t: seq<Window<N>>, w: Window<N>): seq<Window<N>>
    decreases |t|
  {
    if t == [] || t[|t| - 1].zIndex <= w.zIndex then t + [w]
    else InsertByZ(t[..|t| - 1], w) + [t[|t| - 1]]
  }

  /** The windows in paint order: a stable sort by ascending z-index. */
  function SortByZ<N>(ws: seq<Window<N>>): seq<Window<N>>
    decreases |ws|
  {
    if ws == [] then [] else InsertByZ(SortByZ(ws[..|ws| - 1]), ws[|ws| - 1])
  }

  /** Insertion keeps every element and adds `w`, and bounds on z-indices carry over. */
  lemma {:induction false} InsertByZElements<N>(t: seq<Window<N>>, w: Window<N>, bound: int)
    ensures multiset(InsertByZ(t, w)) == multiset(t) + multiset{w}
    ensures AllAtMost(t, bound) && w.zIndex <= bound ==> AllAtMost(InsertByZ(t, w), bound)
    decreases |t|
  {
    if !(t == [] || t[|t| - 1].zIndex <= w.zIndex) {
      var t', last := t[..|t| - 1], t[|t| - 1];
      assert t == t' + [last];
      InsertByZElements(t', w, bound);
    }
  }

  /** Insertion into a sorted list yields a sorted list. */
  lemma {:induction false} InsertByZSorted<N>(t: seq<Window<N>>, w: Window<N>)
    requires SortedByZ(t)
    ensures SortedByZ(InsertByZ(t, w))
    decreases |t|
  {
    if !(t == [] || t[|t| - 1].zIndex <= w.zIndex) {
      var t', last := t[..|t| - 1], t[|t| - 1];
      InsertByZSorted(t', w);
      InsertByZElements(t', w, last.zIndex);
    }
  }

  /** The sort puts the windows in paint order and loses or invents none. */
  lemma {:induction false} SortByZSortedPermutation<N>(ws: seq<Window<N>>)
    ensures SortedByZ(SortByZ(ws))
    ensures multiset(SortByZ(ws)) == multiset(ws)
    decreases |ws|
  {
    if ws != [] {
      var ws' := ws[..|ws| - 1];
      SortByZSortedPermutation(ws');
      InsertByZSorted(SortByZ(ws'), ws[|ws| - 1]);
      InsertByZElements(SortByZ(ws'), ws[|ws| - 1], 0);
      assert ws == ws' + [ws[|ws| - 1]];
    }
  }

  /** Sorting a list that is already in paint order changes nothing. */
  lemma {:induction false} SortByZOfSorted<N>(ws: seq<Window<N>>)
    requires SortedByZ(ws)
    ensures SortByZ(ws) == ws
    decreases |ws|
  {
    if ws != [] {
      SortByZOfSorted(ws[..|ws| - 1]);
      assert ws == ws[..|ws| - 1] + [ws[|ws| - 1]];
    }
  }

  /** Inserting an element that is not below the last one appends it. */
  lemma InsertByZAtEnd<N>(t: seq<Window<N>>, w: Window<N>)
    requires t == [] || t[|t| - 1].zIndex <= w.zIndex
    ensures InsertByZ(t, w) == t + [w]
  {
  }

  /**
   * The sort after a raise: when `w` carries a z-index above all others and the others are
   * in paint order, sorting moves `w` to the end and keeps the others where they were.
   */
  lemma {:induction false} SortMovesTopToEnd<N>(p: seq<Window<N>>, w: Window<N>, q: seq<Window<N>>)
    requires SortedByZ(p + q)
    requires AllAtMost(p + q, w.zIndex - 1)
    ensures SortByZ(p + [w] + q) == p + q + [w]
    decreases |q|
  {
    if q == [] {
      assert p + [w] + q == p + [w];
      assert p + q == p;
      SortByZOfSorted(p);
      assert (p + [w])[..|p|] == p;
      InsertByZAtEnd(p, w);
    } else {
      var q', x := q[..|q| - 1], q[|q| - 1];
      var pq' := p + q';
      assert p + q == pq' + [x];
      assert forall i :: 0 <= i < |pq'| ==> pq'[i] == (p + q)[i];
      assert x == (p + q)[|p + q| - 1];
      SortMovesTopToEnd(p, w, q');
      var s := p + [w] + q;
      assert s == (p + [w] + q') + [x];
      assert s[..|s| - 1] == p + [w] + q';
      // SortByZ(s) == InsertByZ(pq' + [w], x) == InsertByZ(pq', x) + [w]
      var t := pq' + [w];
      assert t[..|t| - 1] == pq';
      assert x.zIndex < w.zIndex;
      assert InsertByZ(t, x) == InsertByZ(pq', x) + [w];
      assert pq' == [] || pq'[|pq'| - 1].zIndex <= x.zIndex;
      InsertByZAtEnd(pq', x);
    }
  }

  /** A freshly opened window: cascade position, explicit or default size, top z, active. */
  function NewWindow<N>(id: string, title: string, content: N, icon: Option<N>,
                        size: Option<Size>, openCount: nat, z: int): Window<N>
  {
    Window(id, title, icon, Rendered(content), CascadeOffset(openCount), size.GetOr(DefaultSize), z, true)
  }

  /** The window list after `launchApp(id, title, content, icon, size)` drew the z-index `z`. */
  function LaunchedWindows<N>(ws: seq<Window<N>>, id: string, title: string, content: N,
                              icon: Option<N>, size: Option<Size>, z: int): seq<Window<N>>
  {
    if HasId(ws, id) then SortByZ(Raised(ws, id, z))
    else SortByZ(Deactivated(ws) + [NewWindow(id, title, content, icon, size, |ws|, z)])
  }

  /** The window list after `handleWindowFocus(id)` drew the z-index `z`. */
  function FocusedWindows<N>(ws: seq<Window<N>>, id: string, z: int): seq<Window<N>> {
    SortByZ(Raised(ws, id, z))
  }

  /** The dock's running indicator: some open window with that id is active. */
  predicate DockRunning<N>(ws: seq<Window<N>>, appId: string) {
    exists i :: 0 <= i < |ws| && ws[i].id == appId && ws[i].isActive
  }

  // ---------------------------------------------------------------------------------------
  // What each rewrite does to a registry that satisfies the invariant

  /** Taking one window out keeps ids unique, z-indices ascending and bounded; the others keep their order. */
  lemma RemoveAtKeeps<N>(ws: seq<Window<N>>, active: Option<string>, nextZ: int, k: nat)
    requires RegistryInvariant(ws, active, nextZ)
    requires k < |ws|
    ensures forall i :: 0 <= i < |RemoveAt(ws, k)| ==> RemoveAt(ws, k)[i] == ws[if i < k then i else i + 1]
    ensures UniqueIds(RemoveAt(ws, k)) && StrictlySortedByZ(RemoveAt(ws, k))
    ensures AllAtMost(RemoveAt(ws, k), nextZ)
    ensures forall i :: 0 <= i < |RemoveAt(ws, k)| ==> RemoveAt(ws, k)[i].id != ws[k].id
  {
    var r := RemoveAt(ws, k);
    assert forall i :: 0 <= i < |r| ==> r[i] == ws[if i < k then i else i + 1];
  }

  /**
   * Putting an active window with the next z-index on top of a registry with no active
   * window and no window of the same id gives a registry in which it is the active one.
   */
  lemma AppendTopKeepsInvariant<N>(d: seq<Window<N>>, w: Window<N>, nextZ: int)
    requires RegistryInvariant(d, None, nextZ)
    requires forall i :: 0 <= i < |d| ==> d[i].id != w.id
    requires w.isActive && w.zIndex == nextZ + 1
    ensures RegistryInvariant(d + [w], Some(w.id), nextZ + 1)
  {
    var r := d + [w];
    assert forall i :: 0 <= i < |d| ==> r[i] == d[i];
  }

  /** With unique ids, raising `ws[k]` touches exactly that window. */
  lemma RaisedSplit<N>(ws: seq<Window<N>>, k: nat, z: int)
    requires UniqueIds(ws) && k < |ws|
    ensures Raised(ws, ws[k].id, z)
            == Deactivated(ws[..k]) + [ws[k].(isActive := true, zIndex := z)] + Deactivated(ws[k + 1..])
    ensures Deactivated(ws[..k]) + Deactivated(ws[k + 1..]) == Deactivated(RemoveAt(ws, k))
  {
  }

  /**
   * Raising the open window at index `k` with the next z-index: it becomes the last (topmost)
   * window and the only active one, the others keep their order and lose the active flag,
   * and the invariant holds for the advanced counter.
   */
  lemma {:induction false} RaiseExisting<N>(ws: seq<Window<N>>, active: Option<string>, nextZ: int, k: nat)
    requires RegistryInvariant(ws, active, nextZ)
    requires k < |ws|
    ensures SortByZ(Raised(ws, ws[k].id, nextZ + 1))
            == Deactivated(RemoveAt(ws, k)) + [ws[k].(isActive := true, zIndex := nextZ + 1)]
    ensures RegistryInvariant(SortByZ(Raised(ws, ws[k].id, nextZ + 1)), Some(ws[k].id), nextZ + 1)
  {
    var w := ws[k].(isActive := true, zIndex := nextZ + 1);
    var p, q := Deactivated(ws[..k]), Deactivated(ws[k + 1..]);
    RaisedSplit(ws, k, nextZ + 1);
    RemoveAtKeeps(ws, active, nextZ, k);
    var d := Deactivated(RemoveAt(ws, k));
    assert p + q == d;
    assert RegistryInvariant(d, None, nextZ);
    SortMovesTopToEnd(p, w, q);
    AppendTopKeepsInvariant(d, w, nextZ);
  }

  /**
   * Launching an id that is not open appends one active window at the cascade position for
   * the current count, with the given or the default size and the next z-index; every
   * other window becomes inactive and keeps its place.
   */
  lemma {:induction false} LaunchNew<N>(ws: seq<Window<N>>, active: Option<string>, nextZ: int, id: string,
                                        title: string, content: N, icon: Option<N>, size: Option<Size>)
    requires RegistryInvariant(ws, active, nextZ)
    requires !HasId(ws, id)
    ensures LaunchedWindows(ws, id, title, content, icon, size, nextZ + 1)
            == Deactivated(ws) + [NewWindow(id, title, content, icon, size, |ws|, nextZ + 1)]
    ensures RegistryInvariant(LaunchedWindows(ws, id, title, content, icon, size, nextZ + 1), Some(id), nextZ + 1)
  {
    var w := NewWindow(id, title, content, icon, size, |ws|, nextZ + 1);
    var p := Deactivated(ws);
    assert p + [] == p;
    assert p + [w] + [] == p + [w];
    SortMovesTopToEnd(p, w, []);
    AppendTopKeepsInvariant(p, w, nextZ);
  }

  /**
   * Launching an id that is already open reuses its window: nothing is appended, that window
   * is moved to the top with the next z-index and becomes the only active one.
   */
  lemma LaunchExisting<N>(ws: seq<Window<N>>, active: Option<string>, nextZ: int, k: nat, title: string,
                          content: N, icon: Option<N>, size: Option<Size>)
    requires RegistryInvariant(ws, active, nextZ)
    requires k < |ws|
    ensures LaunchedWindows(ws, ws[k].id, title, content, icon, size, nextZ + 1)
            == Deactivated(RemoveAt(ws, k)) + [ws[k].(isActive := true, zIndex := nextZ + 1)]
    ensures RegistryInvariant(LaunchedWindows(ws, ws[k].id, title, content, icon, size, nextZ + 1),
                              Some(ws[k].id), nextZ + 1)
  {
    RaiseExisting(ws, active, nextZ, k);
  }

  /** Everything `launchApp` does to a registry that satisfies the invariant, in one statement. */
  lemma LaunchOutcome<N>(ws: seq<Window<N>>, active: Option<string>, nextZ: int, id: string, title: string,
                         content: N, icon: Option<N>, size: Option<Size>)
    requires RegistryInvariant(ws, active, nextZ)
    ensures RegistryInvariant(LaunchedWindows(ws, id, title, content, icon, size, nextZ + 1), Some(id), nextZ + 1)
    ensures forall k :: 0 <= k < |ws| && ws[k].id == id ==>
      LaunchedWindows(ws, id, title, content, icon, size, nextZ + 1)
      == Deactivated(RemoveAt(ws, k)) + [ws[k].(isActive := true, zIndex := nextZ + 1)]
    ensures !HasId(ws, id) ==>
      LaunchedWindows(ws, id, title, content, icon, size, nextZ + 1)
      == Deactivated(ws) + [NewWindow(id, title, content, icon, size, |ws|, nextZ + 1)]
    ensures |LaunchedWindows(ws, id, title, content, icon, size, nextZ + 1)| == if HasId(ws, id) then |ws| else |ws| + 1
    ensures var r := LaunchedWindows(ws, id, title, content, icon, size, nextZ + 1);
      |r| > 0 && r[|r| - 1].id == id && r[|r| - 1].isActive
  {
    var r := LaunchedWindows(ws, id, title, content, icon, size, nextZ + 1);
    if HasId(ws, id) {
      var k :| 0 <= k < |ws| && ws[k].id == id;
      LaunchExisting(ws, active, nextZ, k, title, content, icon, size);
      forall k' | 0 <= k' < |ws| && ws[k'].id == id
        ensures r == Deactivated(RemoveAt(ws, k')) + [ws[k'].(isActive := true, zIndex := nextZ + 1)]
      {
        assert k' == k;
      }
    } else {
      LaunchNew(ws, active, nextZ, id, title, content, icon, size);
    }
  }

  /**
   * Focusing an id that is not open still issues a z-index: every window becomes inactive,
   * the order is kept, and the invariant holds with that id as the active one.
   */
  lemma FocusMissing<N>(ws: seq<Window<N>>, active: Option<string>, nextZ: int, id: string)
    requires RegistryInvariant(ws, active, nextZ)
    requires !HasId(ws, id)
    ensures FocusedWindows(ws, id, nextZ + 1) == Deactivated(ws)
    ensures RegistryInvariant(FocusedWindows(ws, id, nextZ + 1), Some(id), nextZ + 1)
  {
    assert Raised(ws, id, nextZ + 1) == Deactivated(ws);
    SortByZOfSorted(Deactivated(ws));
  }

  /** Closing removes exactly the window with that id, keeping the others in order. */
  lemma {:induction false} WithoutRemovesOne<N>(ws: seq<Window<N>>, k: nat)
    requires UniqueIds(ws) && k < |ws|
    ensures Without(ws, ws[k].id) == RemoveAt(ws, k)
    decreases |ws|
  {
    if k == 0 {
      WithoutAbsent(ws[1..], ws[0].id);
      assert RemoveAt(ws, 0) == ws[1..];
    } else {
      WithoutRemovesOne(ws[1..], k - 1);
      assert ws[1..][k - 1] == ws[k];
      assert RemoveAt(ws, k) == [ws[0]] + RemoveAt(ws[1..], k - 1);
    }
  }

  /** Closing an id that is not open changes nothing. */
  lemma {:induction false} WithoutAbsent<N>(ws: seq<Window<N>>, id: string)
    requires !HasId(ws, id)
    ensures Without(ws, id) == ws
    decreases |ws|
  {
    if ws != [] {
      WithoutAbsent(ws[1..], id);
      assert ws == [ws[0]] + ws[1..];
    }
  }

  /** Closing keeps the invariant; the active id is cleared only when it was the closed one. */
  lemma CloseKeepsInvariant<N>(ws: seq<Window<N>>, active: Option<string>, nextZ: int, id: string)
    requires RegistryInvariant(ws, active, nextZ)
    ensures !HasId(Without(ws, id), id)
    ensures RegistryInvariant(Without(ws, id), if active == Some(id) then None else active, nextZ)
  {
    if HasId(ws, id) {
      var k :| 0 <= k < |ws| && ws[k].id == id;
      WithoutRemovesOne(ws, k);
      RemoveAtKeeps(ws, active, nextZ, k);
    } else {
      WithoutAbsent(ws, id);
    }
  }

  /**
   * Minimizing keeps the window in the list (collapsed, content dropped, inactive) and
   * leaves every other window as it was; the invariant holds with the active id cleared
   * only when it was the minimized one.
   */
  lemma MinimizeKeepsInvariant<N>(ws: seq<Window<N>>, active: Option<string>, nextZ: int, id: string)
    requires RegistryInvariant(ws, active, nextZ)
    ensures RegistryInvariant(Minimized(ws, id), if active == Some(id) then None else active, nextZ)
    ensures forall i :: 0 <= i < |ws| && ws[i].id != id ==> Minimized(ws, id)[i] == ws[i]
    ensures forall i :: 0 <= i < |ws| && ws[i].id == id ==>
      !Minimized(ws, id)[i].isActive && Minimized(ws, id)[i].size == MinimizedSize
  {
  }

  /** Clearing every active flag yields a registry with no active window. */
  lemma DeactivateKeepsInvariant<N>(ws: seq<Window<N>>, active: Option<string>, nextZ: int)
    requires RegistryInvariant(ws, active, nextZ)
    ensures RegistryInvariant(Deactivated(ws), None, nextZ)
    ensures forall i :: 0 <= i < |ws| ==> !Deactivated(ws)[i].isActive
  {
  }

  /**
   * The dock indicator for an app shows exactly when that app's window is open and is the
   * focused one; an open but unfocused window shows none.
   */
  lemma DockRunningIffFocused<N>(ws: seq<Window<N>>, active: Option<string>, nextZ: int, appId: string)
    requires RegistryInvariant(ws, active, nextZ)
    ensures DockRunning(ws, appId) <==> active == Some(appId) && HasId(ws, appId)
  {
  }
}
