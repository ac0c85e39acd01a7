/**
 * The desktop icons of the desktop page as pure values: the icon record, the initial
 * catalog and the `map` rewrites applied by selection, background click and drag-end.
 */
module DesktopIcons {
  import opened Wrappers
  import opened Geometry

  datatype IconKind = Folder | File

  /** The file sub-type; it only chooses a glyph. */
  datatype FileMime = Image | Document | Audio | Video | Archive | Code | Generic

  /** One desktop icon (`DesktopIconData`, without the optional double-click callback). */
  datatype DesktopIcon = DesktopIcon(
    id: string,
    name: string,
    kind: IconKind,
    mime: Option<FileMime>,
    position: Point,
    isSelected: bool)

  /** The icons the desktop starts with. */
  const InitialIcons: seq<DesktopIcon> := [
    DesktopIcon("docs-folder", "Documents", Folder, None, Point(40, 40), false),
    DesktopIcon("notes-file", "My Notes.txt", File, Some(Document), Point(40, 150), false),
    DesktopIcon("wallpaper-img", "Background.jpg", File, Some(Image), Point(40, 260), false)
  ]

  predicate UniqueIconIds(icons: seq<DesktopIcon>) {
    forall i, j :: 0 <= i < j < |icons| ==> icons[i].id != icons[j].id
  }

  predicate AtMostOneSelected(icons: seq<DesktopIcon>) {
    forall i, j :: 0 <= i < |icons| && 0 <= j < |icons| && icons[i].isSelected && icons[j].isSelected ==> i == j
  }

  /** The invariant of the icon surface: ids are keys and selection is exclusive. */
  predicate IconSurface(icons: seq<DesktopIcon>) {
    UniqueIconIds(icons) && AtMostOneSelected(icons)
  }

  /** Every icon selected exactly when its id is `id`; order and positions kept. */
  function SelectedOnly(icons: seq<DesktopIcon>, id: string): seq<DesktopIcon> {
    seq(|icons|, i requires 0 <= i < |icons| => icons[i].(isSelected := icons[i].id == id))
  }

  /** Every icon deselected; order and positions kept. */
  function NoneSelected(icons: seq<DesktopIcon>): seq<DesktopIcon> {
    seq(|icons|, i requires 0 <= i < |icons| => icons[i].(isSelected := false))
  }

  /** The icons with id `id` moved to `p`; every other icon untouched. */
  function MovedTo(icons: seq<DesktopIcon>, id: string, p: Point): seq<DesktopIcon> {
    seq(|icons|, i requires 0 <= i < |icons| => if icons[i].id == id then icons[i].(position := p) else icons[i])
  }

  /** The first icon with that id, if any. */
  function FindIcon(icons: seq<DesktopIcon>, id: string): (r: Option<DesktopIcon>)
    ensures r.Some? ==> r.value.id == id && r.value in icons
    ensures r.None? <==> forall i :: 0 <= i < |icons| ==> icons[i].id != id
    decreases |icons|
  {
    if icons == [] then None
    else if icons[0].id == id then Some(icons[0])
    else FindIcon(icons[1..], id)
  }

  /** The initial catalog satisfies the surface invariant. */
  lemma InitialIconsValid()
    ensures IconSurface(InitialIcons)
  {
  }

  /**
   * Selecting is exclusive: afterwards exactly the icons with that id are selected, so with
   * unique ids at most one is, whatever was selected before.
   */
  lemma SelectIsExclusive(icons: seq<DesktopIcon>, id: string)
    requires IconSurface(icons)
    ensures IconSurface(SelectedOnly(icons, id))
    ensures forall i :: 0 <= i < |icons| ==> (SelectedOnly(icons, id)[i].isSelected <==> icons[i].id == id)
    ensures forall other :: SelectedOnly(SelectedOnly(icons, other), id) == SelectedOnly(icons, id)
  {
  }

  /** A background click leaves no icon selected. */
  lemma DeselectAllClears(icons: seq<DesktopIcon>)
    requires IconSurface(icons)
    ensures IconSurface(NoneSelected(icons))
    ensures forall i :: 0 <= i < |icons| ==> !NoneSelected(icons)[i].isSelected
  {
  }

  /** A drop moves only the dragged icon; ids, names and selection stay as they were. */
  lemma MoveChangesOnlyDragged(icons: seq<DesktopIcon>, id: string, p: Point)
    requires IconSurface(icons)
    ensures IconSurface(MovedTo(icons, id, p))
    ensures forall i :: 0 <= i < |icons| && icons[i].id != id ==> MovedTo(icons, id, p)[i] == icons[i]
    ensures forall i :: 0 <= i < |icons| && icons[i].id == id ==> MovedTo(icons, id, p)[i].position == p
  {
  }
}
