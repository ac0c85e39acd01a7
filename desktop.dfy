/**
 * The desktop session manager: the four state cells of the desktop page (icons, open
 * windows, focused window id, stacking counter) and one method per event handler. Each
 * handler is one atomic transition; the list rewrites it applies are the pure functions
 * of the Windows and DesktopIcons modules.
 */
module Desktop {
  import opened Wrappers
  import opened Geometry
  import opened Windows
  import opened DesktopIcons

  /** JavaScript truthiness of `activeWindowId`: `null` and the empty string are falsy. */
  predicate Truthy(active: Option<string>) {
    active.Some? && active.value != ""
  }

  /** A dock entry: the id and title it launches with, its size, and whether it opens a window. */
  datatype DockEntry = DockEntry(id: string, name: string, size: Option<Size>, opensWindow: bool)

  /** The dock, in display order; Launchpad navigates to its own page instead of opening a window. */
  const DockApps: seq<DockEntry> := [
    DockEntry("finder", "Finder", Some(Size(800, 600)), true),
    DockEntry("launchpad", "Launchpad", None, false),
    DockEntry("notes", "Notes", None, true),
    DockEntry("system-preferences", "System Settings", Some(Size(860, 580)), true),
    DockEntry("generic-app", "My App", None, true)
  ]

  /** The id of the window a double-clicked icon opens. */
  function IconWindowId(iconId: string, kind: IconKind): (r: string)
    ensures |r| > |iconId| && r[|r| - |iconId|..] == iconId
  {
    (if kind == Folder then "folder-window-" else "file-window-") + iconId
  }

  /** A folder and a file never share a window, nor do two icons of the same kind. */
  lemma IconWindowIdInjective(a: string, b: string, k1: IconKind, k2: IconKind)
    requires IconWindowId(a, k1) == IconWindowId(b, k2)
    ensures a == b && k1 == k2
  {
    var r := IconWindowId(a, k1);
    assert r[1] == (if k1 == Folder then 'o' else 'i');
    assert r[1] == (if k2 == Folder then 'o' else 'i');
    var prefix := if k1 == Folder then "folder-window-" else "file-window-";
    assert a == r[|prefix|..];
    assert b == r[|prefix|..];
  }

  /** The title of that window: the icon's name, or a fallback when there is no icon or no name. */
  function IconWindowTitle(icons: seq<DesktopIcon>, iconId: string, kind: IconKind): (r: string)
    ensures r != ""
    ensures FindIcon(icons, iconId).Some? && FindIcon(icons, iconId).value.name != "" ==>
      r == FindIcon(icons, iconId).value.name
  {
    var found := FindIcon(icons, iconId);
    if found.Some? && found.value.name != "" then found.value.name
    else if kind == Folder then "Folder" else "File"
  }

  /** The state of one desktop page; `N` stands for the opaque rendered nodes (content, glyphs). */
  class DesktopSession<N> {
    var desktopIcons: seq<DesktopIcon>
    var openWindows: seq<Window<N>>
    var activeWindowId: Option<string>
    var nextZIndex: int

    ghost predicate Valid()
      reads this
    {
      && RegistryInvariant(openWindows, activeWindowId, nextZIndex)
      && nextZIndex >= InitialZIndex
      && IconSurface(desktopIcons)
    }

    constructor ()
      ensures Valid()
      ensures desktopIcons == InitialIcons && openWindows == []
      ensures activeWindowId == None && nextZIndex == InitialZIndex
    {
      desktopIcons := InitialIcons;
      openWindows := [];
      activeWindowId := None;
      nextZIndex := InitialZIndex;
      InitialIconsValid();
    }

    /** The dock's running dot for `appId`: shown exactly for the open window that has focus. */
    function DockIndicator(appId: string): (shown: bool)
      reads this
      requires Valid()
      ensures shown <==> activeWindowId == Some(appId) && HasId(openWindows, appId)
    {
      DockRunningIffFocused(openWindows, activeWindowId, nextZIndex, appId);
      DockRunning(openWindows, appId)
    }

    /**
     * `launchApp`: reuse the window with that id or open a new one, give it the next
     * z-index, make it the only active window and the focused one.
     */
    method LaunchApp(appId: string, appName: string, appContent: N, appIcon: Option<N>, initialSize: Option<Size>)
      requires Valid()
      modifies this
      ensures Valid()
      ensures nextZIndex == old(nextZIndex) + 1
      ensures activeWindowId == Some(appId)
      ensures desktopIcons == old(desktopIcons)
      ensures openWindows == LaunchedWindows(old(openWindows), appId, appName, appContent, appIcon, initialSize, nextZIndex)
      ensures forall k :: 0 <= k < |old(openWindows)| && old(openWindows)[k].id == appId ==>
        openWindows == Deactivated(RemoveAt(old(openWindows), k)) + [old(openWindows)[k].(isActive := true, zIndex := nextZIndex)]
      ensures !HasId(old(openWindows), appId) ==>
        openWindows == Deactivated(old(openWindows))
                       + [NewWindow(appId, appName, appContent, appIcon, initialSize, |old(openWindows)|, nextZIndex)]
      ensures |openWindows| == if HasId(old(openWindows), appId) then |old(openWindows)| else |old(openWindows)| + 1
      ensures openWindows[|openWindows| - 1].id == appId && openWindows[|openWindows| - 1].isActive
    {
      LaunchOutcome(openWindows, activeWindowId, nextZIndex, appId, appName, appContent, appIcon, initialSize);
      var newZ := nextZIndex + 1;
      openWindows := LaunchedWindows(openWindows, appId, appName, appContent, appIcon, initialSize, newZ);
      nextZIndex := newZ;
      activeWindowId := Some(appId);
    }

    /**
     * `handleWindowFocus`: nothing happens when `id` already has focus; otherwise `id` gets
     * the next z-index and becomes the only active window and the focused one.
     */
    method FocusWindow(id: string)
      requires Valid()
      modifies this
      ensures Valid()
      ensures desktopIcons == old(desktopIcons)
      ensures old(activeWindowId) == Some(id) ==>
        openWindows == old(openWindows) && activeWindowId == old(activeWindowId) && nextZIndex == old(nextZIndex)
      ensures old(activeWindowId) != Some(id) ==>
        && nextZIndex == old(nextZIndex) + 1
        && activeWindowId == Some(id)
        && openWindows == FocusedWindows(old(openWindows), id, nextZIndex)
      ensures old(activeWindowId) != Some(id) ==>
        forall k :: 0 <= k < |old(openWindows)| && old(openWindows)[k].id == id ==>
          openWindows == Deactivated(RemoveAt(old(openWindows), k)) + [old(openWindows)[k].(isActive := true, zIndex := nextZIndex)]
      ensures old(activeWindowId) != Some(id) && !HasId(old(openWindows), id) ==>
        openWindows == Deactivated(old(openWindows))
    {
      if activeWindowId == Some(id) {
        return;
      }
      ghost var ws := openWindows;
      var newZ := nextZIndex + 1;
      if HasId(ws, id) {
        forall k | 0 <= k < |ws| && ws[k].id == id
          ensures FocusedWindows(ws, id, newZ) == Deactivated(RemoveAt(ws, k)) + [ws[k].(isActive := true, zIndex := newZ)]
          ensures RegistryInvariant(FocusedWindows(ws, id, newZ), Some(id), newZ)
        {
          RaiseExisting(ws, activeWindowId, nextZIndex, k);
        }
      } else {
        FocusMissing(ws, activeWindowId, nextZIndex, id);
      }
      nextZIndex := newZ;
      openWindows := FocusedWindows(openWindows, id, newZ);
      activeWindowId := Some(id);
    }

    /**
     * `handleWindowClose`: the window with that id leaves the list, the others stay in order;
     * focus is cleared only when it was on that window and passes to no other window.
     */
    method CloseWindow(id: string)
      requires Valid()
      modifies this
      ensures Valid()
      ensures desktopIcons == old(desktopIcons) && nextZIndex == old(nextZIndex)
      ensures openWindows == Without(old(openWindows), id)
      ensures !HasId(openWindows, id)
      ensures forall k :: 0 <= k < |old(openWindows)| && old(openWindows)[k].id == id ==>
        openWindows == RemoveAt(old(openWindows), k)
      ensures !HasId(old(openWindows), id) ==> openWindows == old(openWindows)
      ensures activeWindowId == if old(activeWindowId) == Some(id) then None else old(activeWindowId)
    {
      ghost var ws := openWindows;
      CloseKeepsInvariant(ws, activeWindowId, nextZIndex, id);
      forall k | 0 <= k < |ws| && ws[k].id == id ensures Without(ws, id) == RemoveAt(ws, k) {
        WithoutRemovesOne(ws, k);
      }
      if !HasId(ws, id) {
        WithoutAbsent(ws, id);
      }
      openWindows := Without(openWindows, id);
      if activeWindowId == Some(id) {
        activeWindowId := None;
      }
    }

    /**
     * `handleWindowMinimize`: the window stays in the list, collapsed to size 0x0 with empty
     * content and inactive; focus is cleared only when it was on that window.
     */
    method MinimizeWindow(id: string)
      requires Valid()
      modifies this
      ensures Valid()
      ensures desktopIcons == old(desktopIcons) && nextZIndex == old(nextZIndex)
      ensures openWindows == Minimized(old(openWindows), id)
      ensures |openWindows| == |old(openWindows)|
      ensures forall i :: 0 <= i < |openWindows| ==>
        openWindows[i] == if old(openWindows)[i].id == id
                          then old(openWindows)[i].(content := EmptyFragment, size := MinimizedSize, isActive := false)
                          else old(openWindows)[i]
      ensures activeWindowId == if old(activeWindowId) == Some(id) then None else old(activeWindowId)
    {
      MinimizeKeepsInvariant(openWindows, activeWindowId, nextZIndex, id);
      openWindows := Minimized(openWindows, id);
      if activeWindowId == Some(id) {
        activeWindowId := None;
      }
    }

    /** `handleWindowMaximize`: not implemented by the page; it changes nothing. */
    method MaximizeWindow(id: string)
      requires Valid()
      ensures Valid()
    {
    }

    /**
     * `handleIconSelect`: exactly the icons with that id become selected, and when a window
     * had focus (a truthy id) every window loses its active flag and focus is cleared.
     */
    method SelectIcon(id: string)
      requires Valid()
      modifies this
      ensures Valid()
      ensures desktopIcons == SelectedOnly(old(desktopIcons), id)
      ensures forall i :: 0 <= i < |desktopIcons| ==> (desktopIcons[i].isSelected <==> desktopIcons[i].id == id)
      ensures nextZIndex == old(nextZIndex)
      ensures Truthy(old(activeWindowId)) ==>
        openWindows == Deactivated(old(openWindows)) && activeWindowId == None
      ensures !Truthy(old(activeWindowId)) ==>
        openWindows == old(openWindows) && activeWindowId == old(activeWindowId)
    {
      SelectIsExclusive(desktopIcons, id);
      desktopIcons := SelectedOnly(desktopIcons, id);
      if Truthy(activeWindowId) {
        DeactivateKeepsInvariant(openWindows, activeWindowId, nextZIndex);
        openWindows := Deactivated(openWindows);
        activeWindowId := None;
      }
    }

    /** `handleDesktopClick`: no icon stays selected, and focus is dropped as in `SelectIcon`. */
    method ClickDesktop()
      requires Valid()
      modifies this
      ensures Valid()
      ensures desktopIcons == NoneSelected(old(desktopIcons))
      ensures forall i :: 0 <= i < |desktopIcons| ==> !desktopIcons[i].isSelected
      ensures nextZIndex == old(nextZIndex)
      ensures Truthy(old(activeWindowId)) ==>
        openWindows == Deactivated(old(openWindows)) && activeWindowId == None
      ensures !Truthy(old(activeWindowId)) ==>
        openWindows == old(openWindows) && activeWindowId == old(activeWindowId)
    {
      DeselectAllClears(desktopIcons);
      desktopIcons := NoneSelected(desktopIcons);
      if Truthy(activeWindowId) {
        DeactivateKeepsInvariant(openWindows, activeWindowId, nextZIndex);
        openWindows := Deactivated(openWindows);
        activeWindowId := None;
      }
    }

    /**
     * `handleIconDragEnd`: with a measured container, the dragged icon moves to the clamped
     * drop position; without one nothing changes.
     */
    method DragEndIcon(iconId: string, screenPosition: Point, container: Option<Rect>)
      requires Valid()
      modifies this
      ensures Valid()
      ensures openWindows == old(openWindows) && activeWindowId == old(activeWindowId)
      ensures nextZIndex == old(nextZIndex)
      ensures container.None? ==> desktopIcons == old(desktopIcons)
      ensures container.Some? ==> desktopIcons == MovedTo(old(desktopIcons), iconId, DropPosition(screenPosition, container.value))
      ensures forall i :: 0 <= i < |desktopIcons| ==>
                desktopIcons[i] == old(desktopIcons)[i] || (desktopIcons[i].position.x >= 0 && desktopIcons[i].position.y >= 0)
    {
      if container.Some? {
        var p := DropPosition(screenPosition, container.value);
        MoveChangesOnlyDragged(desktopIcons, iconId, p);
        desktopIcons := MovedTo(desktopIcons, iconId, p);
      }
    }

    /**
     * `handleIconDoubleClick`: opens (or refocuses) the window for that icon, titled with the
     * icon's name or a fallback.
     */
    method DoubleClickIcon(iconId: string, kind: IconKind, content: N, glyph: N)
      requires Valid()
      modifies this
      ensures Valid()
      ensures desktopIcons == old(desktopIcons)
      ensures nextZIndex == old(nextZIndex) + 1
      ensures activeWindowId == Some(IconWindowId(iconId, kind))
      ensures openWindows == LaunchedWindows(old(openWindows), IconWindowId(iconId, kind),
        IconWindowTitle(old(desktopIcons), iconId, kind), content, Some(glyph), None, nextZIndex)
    {
      var title := IconWindowTitle(desktopIcons, iconId, kind);
      LaunchApp(IconWindowId(iconId, kind), title, content, Some(glyph), None);
    }

    /**
     * A dock click: the entry's launch, or, for the entry that navigates to its own page,
     * leaving the desktop page. Its state is discarded, so the desktop is next seen as it
     * starts: the catalog icons, no windows, no focus and the counter at its initial value.
     */
    method ClickDockEntry(entry: DockEntry, content: N, glyph: N)
      requires Valid()
      modifies this
      ensures Valid()
      ensures !entry.opensWindow ==>
        && desktopIcons == InitialIcons && openWindows == []
        && activeWindowId == None && nextZIndex == InitialZIndex
      ensures entry.opensWindow ==>
        && desktopIcons == old(desktopIcons)
        && nextZIndex == old(nextZIndex) + 1
        && activeWindowId == Some(entry.id)
        && openWindows == LaunchedWindows(old(openWindows), entry.id, entry.name, content, Some(glyph), entry.size, nextZIndex)
    {
      if entry.opensWindow {
        LaunchApp(entry.id, entry.name, content, Some(glyph), entry.size);
      } else {
        InitialIconsValid();
        desktopIcons := InitialIcons;
        openWindows := [];
        activeWindowId := None;
        nextZIndex := InitialZIndex;
      }
    }

    /** File > Close Window: closes the focused window; does nothing when no id is focused. */
    method CloseActiveWindow()
      requires Valid()
      modifies this
      ensures Valid()
      ensures desktopIcons == old(desktopIcons) && nextZIndex == old(nextZIndex)
      ensures Truthy(old(activeWindowId)) ==>
        openWindows == Without(old(openWindows), old(activeWindowId).value) && activeWindowId == None
      ensures !Truthy(old(activeWindowId)) ==>
        openWindows == old(openWindows) && activeWindowId == old(activeWindowId)
    {
      if Truthy(activeWindowId) {
        CloseWindow(activeWindowId.value);
      }
    }

    /** Window > Minimize: minimizes the focused window; does nothing when no id is focused. */
    method MinimizeActiveWindow()
      requires Valid()
      modifies this
      ensures Valid()
      ensures desktopIcons == old(desktopIcons) && nextZIndex == old(nextZIndex)
      ensures Truthy(old(activeWindowId)) ==>
        openWindows == Minimized(old(openWindows), old(activeWindowId).value) && activeWindowId == None
      ensures !Truthy(old(activeWindowId)) ==>
        openWindows == old(openWindows) && activeWindowId == old(activeWindowId)
    {
      if Truthy(activeWindowId) {
        MinimizeWindow(activeWindowId.value);
      }
    }

    /**
     * A left click inside a window's frame as the page wires it: the frame's mouse-down
     * focuses the window, then the click bubbles to the desktop area. The window ends up on
     * top but inactive, no window keeps focus and no dock dot is shown.
     */
    method ClickInsideWindowAsWired(id: string)
      requires Valid()
      modifies this
      ensures Valid()
      ensures desktopIcons == NoneSelected(old(desktopIcons))
      ensures forall i :: 0 <= i < |desktopIcons| ==> !desktopIcons[i].isSelected
      ensures nextZIndex == old(nextZIndex) + (if old(activeWindowId) == Some(id) then 0 else 1)
      ensures var focused := if old(activeWindowId) == Some(id) then old(openWindows)
                             else FocusedWindows(old(openWindows), id, nextZIndex);
              openWindows == if id != "" then Deactivated(focused) else focused
      ensures activeWindowId == if id != "" then None else Some(id)
      ensures id != "" ==> forall i :: 0 <= i < |openWindows| ==> !openWindows[i].isActive
      ensures id != "" ==> forall appId :: !DockIndicator(appId)
      ensures old(activeWindowId) != Some(id) && HasId(old(openWindows), id) ==>
        |openWindows| > 0 && openWindows[|openWindows| - 1].id == id
    {
      ghost var ws := openWindows;
      ghost var wasFocused := activeWindowId == Some(id);
      FocusWindow(id);
      if !wasFocused && HasId(ws, id) {
        var k :| 0 <= k < |ws| && ws[k].id == id;
        assert openWindows[|openWindows| - 1].id == id;
      }
      ClickDesktop();
    }

    /**
     * A left click inside a window's frame with the click kept from reaching the desktop
     * area: the window that was clicked is the focused one, on top, and its dock dot is shown.
     */
    method ClickInsideWindow(id: string)
      requires Valid()
      modifies this
      ensures Valid()
      ensures desktopIcons == old(desktopIcons)
      ensures nextZIndex == old(nextZIndex) + (if old(activeWindowId) == Some(id) then 0 else 1)
      ensures openWindows == if old(activeWindowId) == Some(id) then old(openWindows)
                             else FocusedWindows(old(openWindows), id, nextZIndex)
      ensures activeWindowId == Some(id)
      ensures HasId(old(openWindows), id) ==> DockIndicator(id)
      ensures old(activeWindowId) != Some(id) && HasId(old(openWindows), id) ==>
        |openWindows| > 0 && openWindows[|openWindows| - 1].id == id
    {
      ghost var ws := openWindows;
      ghost var wasFocused := activeWindowId == Some(id);
      FocusWindow(id);
      if HasId(ws, id) {
        var k :| 0 <= k < |ws| && ws[k].id == id;
        if wasFocused {
          assert openWindows[k].id == id;
        } else {
          assert openWindows[|openWindows| - 1].id == id;
        }
      }
    }
  }
}