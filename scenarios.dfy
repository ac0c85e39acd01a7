/**
 * Sessions of use followed through the registry's pure rewrites, starting from a freshly
 * mounted desktop (no windows, counter at 10).
 */
module RegistryScenarios {
  import opened Wrappers
  import opened Geometry
  import opened Windows

  /** A launch with the app id as title, no glyph and the default size. */
  function Open<N>(ws: seq<Window<N>>, id: string, content: N, z: int): seq<Window<N>> {
    LaunchedWindows(ws, id, id, content, None, None, z)
  }

  /** Launching each id in turn, the counter advancing by one per launch. */
  function OpenAll<N>(ws: seq<Window<N>>, ids: seq<string>, content: N, z: int): seq<Window<N>>
    decreases |ids|
  {
    if ids == [] then ws else OpenAll(Open(ws, ids[0], content, z + 1), ids[1..], content, z + 1)
  }

  /** The ids of the open windows, in paint order. */
  function IdList<N>(ws: seq<Window<N>>): seq<string> {
    seq(|ws|, i requires 0 <= i < |ws| => ws[i].id)
  }

  predicate Distinct(ids: seq<string>) {
    forall i, j :: 0 <= i < j < |ids| ==> ids[i] != ids[j]
  }

  /** One launch of an app that is not open: its id is appended and earlier windows stay put. */
  lemma FreshLaunchStep<N>(ws: seq<Window<N>>, active: Option<string>, nextZ: int, id: string, c: N)
    requires RegistryInvariant(ws, active, nextZ)
    requires id !in IdList(ws)
    ensures RegistryInvariant(Open(ws, id, c, nextZ + 1), Some(id), nextZ + 1)
    ensures IdList(Open(ws, id, c, nextZ + 1)) == IdList(ws) + [id]
    ensures forall i :: 0 <= i < |ws| ==> Open(ws, id, c, nextZ + 1)[i].position == ws[i].position
    ensures Open(ws, id, c, nextZ + 1)[|ws|].position == CascadeOffset(|ws|)
    ensures Open(ws, id, c, nextZ + 1)[|ws|].zIndex == nextZ + 1
  {
    forall i | 0 <= i < |ws|
      ensures ws[i].id != id
    {
      assert IdList(ws)[i] == ws[i].id;
    }
    LaunchNew(ws, active, nextZ, id, id, c, None, None);
  }

  /**
   * Launching distinct apps that are not yet open appends one window per app, in launch
   * order; the windows already open keep their places, and the k-th window overall opens at
   * the cascade offset for k.
   */
  lemma {:induction false} OpenAllCascades<N>(ws: seq<Window<N>>, active: Option<string>, nextZ: int,
                                              ids: seq<string>, c: N)
    requires RegistryInvariant(ws, active, nextZ)
    requires Distinct(ids)
    requires forall j :: 0 <= j < |ids| ==> ids[j] !in IdList(ws)
    ensures IdList(OpenAll(ws, ids, c, nextZ)) == IdList(ws) + ids
    ensures RegistryInvariant(OpenAll(ws, ids, c, nextZ), if ids == [] then active else Some(ids[|ids| - 1]),
                              nextZ + |ids|)
    ensures forall i :: 0 <= i < |ws| ==> OpenAll(ws, ids, c, nextZ)[i].position == ws[i].position
    ensures forall k :: |ws| <= k < |ws| + |ids| ==> OpenAll(ws, ids, c, nextZ)[k].position == CascadeOffset(k)
    decreases |ids|
  {
    if ids != [] {
      var ws' := Open(ws, ids[0], c, nextZ + 1);
      FreshLaunchStep(ws, active, nextZ, ids[0], c);
      var rest := ids[1..];
      forall j | 0 <= j < |rest|
        ensures rest[j] !in IdList(ws')
      {
        assert rest[j] == ids[j + 1] != ids[0];
      }
      OpenAllCascades(ws', Some(ids[0]), nextZ + 1, rest, c);
      var r := OpenAll(ws, ids, c, nextZ);
      assert r == OpenAll(ws', rest, c, nextZ + 1);
      assert IdList(ws) + [ids[0]] + rest == IdList(ws) + ids;
      if rest != [] {
        assert rest[|rest| - 1] == ids[|ids| - 1];
      }
      forall i | 0 <= i < |ws|
        ensures r[i].position == ws[i].position
      {
        assert r[i].position == ws'[i].position;
      }
      forall k | |ws| <= k < |ws| + |ids|
        ensures r[k].position == CascadeOffset(k)
      {
        if k == |ws| {
          assert r[k].position == ws'[k].position;
        }
      }
    }
  }

  /** Six distinct launches from an empty desktop: the sixth window opens where the first did. */
  lemma SixthWindowReusesFirstOffset<N>(ids: seq<string>, c: N)
    requires |ids| == 6 && Distinct(ids)
    ensures |OpenAll([], ids, c, InitialZIndex)| == 6
    ensures OpenAll([], ids, c, InitialZIndex)[0].position == Point(100, 100)
    ensures OpenAll([], ids, c, InitialZIndex)[4].position == Point(220, 220)
    ensures OpenAll([], ids, c, InitialZIndex)[5].position == OpenAll([], ids, c, InitialZIndex)[0].position
  {
    var empty: seq<Window<N>> := [];
    OpenAllCascades(empty, None, InitialZIndex, ids, c);
    CascadeRepeatsEveryFive(0);
  }

  /** App a, then app b, neither open before: both appended in that order, b focused. */
  lemma TwoLaunches<N>(ws: seq<Window<N>>, active: Option<string>, nextZ: int, a: string, b: string, ca: N, cb: N)
    requires RegistryInvariant(ws, active, nextZ)
    requires a != b && a !in IdList(ws) && b !in IdList(ws)
    ensures var w2 := Open(Open(ws, a, ca, nextZ + 1), b, cb, nextZ + 2);
            && RegistryInvariant(w2, Some(b), nextZ + 2)
            && IdList(w2) == IdList(ws) + [a, b]
            && w2[|ws| + 1].zIndex == nextZ + 2
  {
    FreshLaunchStep(ws, active, nextZ, a, ca);
    var w1 := Open(ws, a, ca, nextZ + 1);
    assert IdList(w1) == IdList(ws) + [a];
    assert b !in IdList(w1);
    FreshLaunchStep(w1, Some(a), nextZ + 1, b, cb);
    assert IdList(ws) + [a] + [b] == IdList(ws) + [a, b];
  }

  /**
   * App a, then app b, then a again, neither open before: one window per app, b just below
   * a at the top of the stack with a above it, and the dock shows a as running but not b.
   */
  lemma RefocusKeepsOneWindowPerApp<N>(ws: seq<Window<N>>, active: Option<string>, nextZ: int,
                                       a: string, b: string, ca: N, cb: N)
    requires RegistryInvariant(ws, active, nextZ)
    requires a != b && a !in IdList(ws) && b !in IdList(ws)
    ensures var w3 := Open(Open(Open(ws, a, ca, nextZ + 1), b, cb, nextZ + 2), a, ca, nextZ + 3);
            && |w3| == |ws| + 2
            && w3[|ws|].id == b && w3[|ws|].zIndex == nextZ + 2
            && w3[|ws| + 1].id == a && w3[|ws| + 1].zIndex == nextZ + 3
            && RegistryInvariant(w3, Some(a), nextZ + 3)
            && forall x :: DockRunning(w3, x) <==> x == a
  {
    TwoLaunches(ws, active, nextZ, a, b, ca, cb);
    var w2 := Open(Open(ws, a, ca, nextZ + 1), b, cb, nextZ + 2);
    var n := |ws|;
    assert |w2| == n + 2 by {
      assert |IdList(w2)| == |w2|;
    }
    assert w2[n].id == a by {
      assert IdList(w2)[n] == a;
    }
    assert w2[n + 1].id == b by {
      assert IdList(w2)[n + 1] == b;
    }
    LaunchExisting(w2, Some(b), nextZ + 2, n, a, ca, None, None);
    var w3 := Open(w2, a, ca, nextZ + 3);
    assert RemoveAt(w2, n)[n] == w2[n + 1];
    assert w3[n + 1].id == a && w3[n + 1].isActive;
    forall x ensures DockRunning(w3, x) <==> x == a {
      DockRunningIffFocused(w3, Some(a), nextZ + 3, x);
    }
  }

  /** The same three launches on a fresh desktop: b is drawn at 12 and a above it at 13. */
  lemma RefocusFromEmptyDesktop<N>(a: string, b: string, ca: N, cb: N)
    requires a != b
    ensures var w3 := Open(Open(Open([], a, ca, InitialZIndex + 1), b, cb, InitialZIndex + 2), a, ca, InitialZIndex + 3);
            && |w3| == 2
            && w3[0].id == b && w3[0].zIndex == 12
            && w3[1].id == a && w3[1].zIndex == 13
            && forall x :: DockRunning(w3, x) <==> x == a
  {
    var empty: seq<Window<N>> := [];
    RefocusKeepsOneWindowPerApp(empty, None, InitialZIndex, a, b, ca, cb);
  }
}
