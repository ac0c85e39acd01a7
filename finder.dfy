/**
 * The Finder page: a fixed catalog of folder and file entries, a single selected id,
 * an icon/list view switch and a search box whose term filters the entries by name.
 */
module Finder {
  import opened Wrappers
  import opened Geometry
  import opened Text
  import opened Sequences
  import opened DesktopIcons

  datatype ViewMode = IconView | ListView

  /** One Finder entry (`MockEntry`, without its table glyph). */
  datatype FinderItem = FinderItem(
    id: string,
    name: string,
    kind: IconKind,
    mime: Option<FileMime>,
    kindString: string,
    size: Option<string>,
    dateModified: string,
    position: Option<Point>)

  /** The entries the page starts with. */
  const InitialItems: seq<FinderItem> := [
    FinderItem("folder-apps", "Applications", Folder, None, "Folder", None,
               "Yesterday, 10:30 AM", Some(Point(30, 20))),
    FinderItem("folder-docs", "Documents", Folder, None, "Folder", None,
               "Today, 09:15 AM", Some(Point(30, 130))),
    FinderItem("folder-pics", "Pictures", Folder, None, "Folder", None,
               "Last Month", Some(Point(30, 240))),
    FinderItem("file-img1", "Sunset.jpg", File, Some(Image), "JPEG Image", Some("2.1 MB"),
               "2 days ago, 03:45 PM", Some(Point(170, 20))),
    FinderItem("file-doc1", "Quarterly Report.docx", File, Some(Document), "Microsoft Word Document",
               Some("780 KB"), "Yesterday, 05:00 PM", Some(Point(170, 130))),
    FinderItem("file-arc1", "Project_Assets.zip", File, Some(Archive), "ZIP Archive", Some("15.3 MB"),
               "Last Week", Some(Point(170, 240))),
    FinderItem("file-code1", "script.js", File, Some(Code), "JavaScript File", Some("12 KB"),
               "Today, 11:00 AM", Some(Point(310, 20)))
  ]

  predicate UniqueItemIds(items: seq<FinderItem>) {
    forall i, j :: 0 <= i < j < |items| ==> items[i].id != items[j].id
  }

  /** The catalog's ids are keys. */
  lemma InitialItemsUnique()
    ensures UniqueItemIds(InitialItems) && |InitialItems| == 7
  {
  }

  // ---------------------------------------------------------------------------------------
  // Search

  /** An entry matches when its name contains the term, both lower-cased. */
  predicate NameMatches(item: FinderItem, term: string) {
    Contains(ToLower(item.name), ToLower(term))
  }

  /** `filteredItems`: the entries whose name contains the term, ignoring ASCII case, in catalog order. */
  function FilteredItems(items: seq<FinderItem>, term: string): (r: seq<FinderItem>)
    ensures forall x :: x in r <==> x in items && NameMatches(x, term)
    ensures IsSubsequence(r, items)
  {
    FilterIsSubsequence(items, item => NameMatches(item, term));
    Filter(items, item => NameMatches(item, term))
  }

  /** An empty search box shows every entry. */
  lemma EmptySearchKeepsAll(items: seq<FinderItem>)
    ensures FilteredItems(items, "") == items
  {
    forall i | 0 <= i < |items|
      ensures NameMatches(items[i], "")
    {
      ContainsEmpty(ToLower(items[i].name));
    }
    FilterKeepsAll(items, item => NameMatches(item, ""));
  }

  /** The search ignores the case the term is typed in. */
  lemma SearchIgnoresCase(items: seq<FinderItem>, term: string)
    ensures FilteredItems(items, ToUpper(term)) == FilteredItems(items, term)
    ensures FilteredItems(items, ToLower(term)) == FilteredItems(items, term)
  {
    ToLowerIgnoresCase(term);
    FilterCongruent(items, item => NameMatches(item, ToUpper(term)), item => NameMatches(item, term));
    FilterCongruent(items, item => NameMatches(item, ToLower(term)), item => NameMatches(item, term));
  }

  /** The "No items match" message: shown when a non-empty term keeps no entry. */
  predicate ShowsNoMatch(items: seq<FinderItem>, term: string) {
    |FilteredItems(items, term)| == 0 && term != ""
  }

  /** The message appears exactly when something was typed and no entry's name contains it. */
  lemma NoMatchMessageIff(items: seq<FinderItem>, term: string)
    ensures ShowsNoMatch(items, term) <==> term != "" && forall i :: 0 <= i < |items| ==> !NameMatches(items[i], term)
    ensures !ShowsNoMatch(items, "")
  {
    var r := FilteredItems(items, term);
    if r != [] {
      assert r[0] in r;
    }
    if exists i :: 0 <= i < |items| && NameMatches(items[i], term) {
      var i :| 0 <= i < |items| && NameMatches(items[i], term);
      assert items[i] in r;
    }
  }

  /** The icon view draws the filtered entries that have a position (`item.position && …`). */
  function IconViewItems(items: seq<FinderItem>, term: string): (r: seq<FinderItem>)
    ensures forall x :: x in r <==> x in items && NameMatches(x, term) && x.position.Some?
    ensures IsSubsequence(r, items)
  {
    var shown := FilteredItems(items, term);
    FilterIsSubsequence(shown, (item: FinderItem) => item.position.Some?);
    SubsequenceTransitive(Filter(shown, (item: FinderItem) => item.position.Some?), shown, items);
    Filter(shown, (item: FinderItem) => item.position.Some?)
  }

  // ---------------------------------------------------------------------------------------
  // Status bar

  /** The status-bar text for `count` shown entries: the count in decimal, then "item" or "items". */
  function StatusText(count: nat): string {
    NatToString(count) + " item" + (if count != 1 then "s" else "")
  }

  /**
   * The status bar starts with the count in decimal, which reads back as the count, and then
   * says " item" for exactly one entry and " items" for any other number, zero included.
   */
  lemma StatusTextReadsBack(count: nat)
    ensures var digits := NatToString(count);
            && IsPrefix(digits, StatusText(count))
            && DigitsValue(digits) == count
            && StatusText(count)[|digits|..] == (if count == 1 then " item" else " items")
  {
    var digits := NatToString(count);
    var suffix := " item" + (if count != 1 then "s" else "");
    NatToStringRoundTrip(count);
    assert StatusText(count) == digits + suffix;
    assert (digits + suffix)[..|digits|] == digits;
    assert (digits + suffix)[|digits|..] == suffix;
  }

  /** The two texts a reader sees most: one entry, and an empty result. */
  lemma StatusTextExamples()
    ensures StatusText(1) == "1 item"
    ensures StatusText(0) == "0 items"
    ensures StatusText(7) == "7 items"
  {
    assert NatToString(1) == "1";
    assert NatToString(0) == "0";
    assert NatToString(7) == "7";
  }

  // ---------------------------------------------------------------------------------------
  // Drag-end

  /** The entry after a drop of `id` at `p`: moved if it is the dragged one. */
  function MovedItem(item: FinderItem, id: string, p: Point): FinderItem {
    if item.id == id then item.(position := Some(p)) else item
  }

  /** The entries after a drop of `id` at `p`: the dragged entry repositioned, the rest untouched. */
  function ItemsMoved(items: seq<FinderItem>, id: string, p: Point): seq<FinderItem> {
    seq(|items|, i requires 0 <= i < |items| => MovedItem(items[i], id, p))
  }

  /**
   * A drop stores the pointer position verbatim on the dragged entry, unclamped, and leaves
   * every other entry and every entry's name and id as they were.
   */
  lemma MoveSetsPositionVerbatim(items: seq<FinderItem>, id: string, p: Point)
    requires UniqueItemIds(items)
    ensures UniqueItemIds(ItemsMoved(items, id, p))
    ensures |ItemsMoved(items, id, p)| == |items|
    ensures forall i :: 0 <= i < |items| && items[i].id == id ==>
              ItemsMoved(items, id, p)[i] == items[i].(position := Some(p))
    ensures forall i :: 0 <= i < |items| && items[i].id != id ==> ItemsMoved(items, id, p)[i] == items[i]
  {
  }

  /** The drop rewrite distributes over concatenation. */
  lemma ItemsMovedAppend(a: seq<FinderItem>, b: seq<FinderItem>, id: string, p: Point)
    ensures ItemsMoved(a + b, id, p) == ItemsMoved(a, id, p) + ItemsMoved(b, id, p)
  {
  }

  /** One step of the search filter, peeled off the front. */
  lemma FilteredItemsCons(items: seq<FinderItem>, term: string)
    requires items != []
    ensures FilteredItems(items, term)
         == (if NameMatches(items[0], term) then [items[0]] else []) + FilteredItems(items[1..], term)
  {
  }

  /** Moving an entry does not change which entries the search shows, only where the moved one is drawn. */
  lemma {:induction false} MoveCommutesWithSearch(items: seq<FinderItem>, id: string, p: Point, term: string)
    ensures FilteredItems(ItemsMoved(items, id, p), term) == ItemsMoved(FilteredItems(items, term), id, p)
    decreases |items|
  {
    if items != [] {
      var moved := ItemsMoved(items, id, p);
      var head: seq<FinderItem> := if NameMatches(items[0], term) then [items[0]] else [];
      var rest := FilteredItems(items[1..], term);
      assert moved[0] == MovedItem(items[0], id, p);
      assert moved[1..] == ItemsMoved(items[1..], id, p);
      MoveCommutesWithSearch(items[1..], id, p, term);
      FilteredItemsCons(items, term);
      FilteredItemsCons(moved, term);
      ItemsMovedAppend(head, rest, id, p);
      assert ItemsMoved(head, id, p) == if NameMatches(moved[0], term) then [moved[0]] else [];
    }
  }

  // ---------------------------------------------------------------------------------------
  // The page's state

  class FinderWindow {
    var items: seq<FinderItem>
    var selectedItemId: Option<string>
    var currentView: ViewMode
    var searchTerm: string

    ghost predicate Valid()
      reads this
    {
      UniqueItemIds(items)
    }

    constructor ()
      ensures Valid()
      ensures items == InitialItems && selectedItemId == None
      ensures currentView == IconView && searchTerm == ""
    {
      items := InitialItems;
      selectedItemId := None;
      currentView := IconView;
      searchTerm := "";
      InitialItemsUnique();
    }

    /** `handleItemSelect`: remember exactly one selected id. */
    method SelectItem(id: string)
      requires Valid()
      modifies this
      ensures Valid()
      ensures selectedItemId == Some(id)
      ensures items == old(items) && currentView == old(currentView) && searchTerm == old(searchTerm)
    {
      selectedItemId := Some(id);
    }

    /** `handleItemDragEnd`: store the drop position on the dragged entry. */
    method DragEndItem(id: string, newPosition: Point)
      requires Valid()
      modifies this
      ensures Valid()
      ensures items == ItemsMoved(old(items), id, newPosition)
      ensures selectedItemId == old(selectedItemId) && currentView == old(currentView)
      ensures searchTerm == old(searchTerm)
    {
      MoveSetsPositionVerbatim(items, id, newPosition);
      items := ItemsMoved(items, id, newPosition);
    }

    /** The search box's `onChange`. */
    method SetSearchTerm(term: string)
      requires Valid()
      modifies this
      ensures Valid()
      ensures searchTerm == term
      ensures items == old(items) && selectedItemId == old(selectedItemId) && currentView == old(currentView)
    {
      searchTerm := term;
    }

    /** The icon-view and list-view toolbar buttons. */
    method SetView(view: ViewMode)
      requires Valid()
      modifies this
      ensures Valid()
      ensures currentView == view
      ensures items == old(items) && selectedItemId == old(selectedItemId) && searchTerm == old(searchTerm)
    {
      currentView := view;
    }

    /** An entry is drawn selected when its id is the selected id. */
    predicate IsRenderedSelected(item: FinderItem)
      reads this
    {
      selectedItemId == Some(item.id)
    }

    /**
     * The status bar of the current state: the number of entries the current term shows,
     * in decimal, followed by " item" when that number is one and " items" otherwise.
     */
    function StatusBar(): (text: string)
      reads this
      ensures var n := |FilteredItems(items, searchTerm)|;
              var digits := NatToString(n);
              && IsPrefix(digits, text)
              && DigitsValue(digits) == n
              && text[|digits|..] == (if n == 1 then " item" else " items")
    {
      var n := |FilteredItems(items, searchTerm)|;
      StatusTextReadsBack(n);
      StatusText(n)
    }

    /** With unique ids, at most one entry is drawn selected. */
    lemma AtMostOneRenderedSelected()
      requires Valid()
      ensures forall i, j ::
                0 <= i < |items| && 0 <= j < |items| && IsRenderedSelected(items[i]) && IsRenderedSelected(items[j])
                ==> i == j
    {
    }
  }
}
