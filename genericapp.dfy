/**
 * The demo page with a single notes window: whether the window is active, its filename and
 * its text, and the z-index and title derived from them.
 */
module GenericApp {

  const InitialNotes: string :=
    "This is a generic application window simulating a simple notes app.\n\n"
    + "Features:\n"
    + "- Draggable window frame.\n"
    + "- Mock traffic light controls (close, minimize, maximize).\n"
    + "- Editable filename and content area.\n"
    + "- Simulated 'Save' and 'Clear' actions."

  const InitialFilename: string := "Demo Note"
  const ClearedFilename: string := "Untitled Note"
  const FallbackTitle: string := "Generic Application"
  const ActiveZIndex: int := 20
  const InactiveZIndex: int := 10

  /** The demo window is drawn at 20 while active and at 10 otherwise. */
  function DemoZIndex(isActive: bool): int {
    if isActive then ActiveZIndex else InactiveZIndex
  }

  /** The active window is drawn above the inactive one, and the z-index tells which it is. */
  lemma DemoZIndexOrdersWindows(isActive: bool)
    ensures DemoZIndex(true) > DemoZIndex(false)
    ensures DemoZIndex(isActive) == ActiveZIndex <==> isActive
  {
  }

  /** The window title: the filename, or a fixed fallback when the filename is empty. */
  function DemoTitle(filename: string): (title: string)
    ensures title != ""
    ensures filename != "" ==> title == filename
    ensures filename == "" ==> title == FallbackTitle
  {
    if filename != "" then filename else FallbackTitle
  }

  class NotesDemo {
    var isActive: bool
    var notesContent: string
    var filename: string

    constructor ()
      ensures isActive && notesContent == InitialNotes && filename == InitialFilename
      ensures Title() == InitialFilename && ZIndex() == ActiveZIndex
    {
      isActive := true;
      notesContent := InitialNotes;
      filename := InitialFilename;
    }

    function ZIndex(): int
      reads this
    {
      DemoZIndex(isActive)
    }

    function Title(): string
      reads this
    {
      DemoTitle(filename)
    }

    /** `handleFocus`: the window becomes active and is drawn at 20. */
    method HandleFocus(id: string)
      modifies this
      ensures isActive && ZIndex() == ActiveZIndex
      ensures notesContent == old(notesContent) && filename == old(filename)
    {
      isActive := true;
    }

    /** The page background's `onClick`: the window becomes inactive and is drawn at 10. */
    method BackgroundClick()
      modifies this
      ensures !isActive && ZIndex() == InactiveZIndex
      ensures notesContent == old(notesContent) && filename == old(filename)
    {
      isActive := false;
    }

    /** The Clear button: empty text, and the filename (hence the title) becomes "Untitled Note". */
    method Clear()
      modifies this
      ensures notesContent == "" && filename == ClearedFilename && Title() == ClearedFilename
      ensures isActive == old(isActive)
    {
      notesContent := "";
      filename := ClearedFilename;
    }

    /** The filename input's `onChange`; an emptied field shows the fallback title. */
    method SetFilename(value: string)
      modifies this
      ensures filename == value
      ensures Title() == if value == "" then FallbackTitle else value
      ensures isActive == old(isActive) && notesContent == old(notesContent)
    {
      filename := value;
    }

    /** The text area's `onChange`. */
    method SetNotesContent(value: string)
      modifies this
      ensures notesContent == value
      ensures isActive == old(isActive) && filename == old(filename)
    {
      notesContent := value;
    }

    /** The close control only logs on this page: the window stays. */
    method HandleClose(id: string)
      ensures isActive == old(isActive) && notesContent == old(notesContent) && filename == old(filename)
    {
    }

    /** The minimize control only logs on this page. */
    method HandleMinimize(id: string)
      ensures isActive == old(isActive) && notesContent == old(notesContent) && filename == old(filename)
    {
    }

    /** The maximize control only logs on this page. */
    method HandleMaximize(id: string)
      ensures isActive == old(isActive) && notesContent == old(notesContent) && filename == old(filename)
    {
    }

    /**
     * A left click inside the window as the page wires it: the frame's mouse-down focuses the
     * window, and the click then bubbles to the page background, which deactivates it again.
     */
    method ClickInsideWindowAsWired(id: string)
      modifies this
      ensures !isActive && ZIndex() == InactiveZIndex
      ensures notesContent == old(notesContent) && filename == old(filename)
    {
      HandleFocus(id);
      BackgroundClick();
    }

    /** A left click inside the window with the click kept from reaching the background. */
    method ClickInsideWindow(id: string)
      modifies this
      ensures isActive && ZIndex() == ActiveZIndex
      ensures notesContent == old(notesContent) && filename == old(filename)
    {
      HandleFocus(id);
    }
  }
}
