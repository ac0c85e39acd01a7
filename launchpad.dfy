/**
 * The Launchpad overlay: a constant list of applications and a search box that keeps the
 * applications whose name, or one of whose keywords, contains the typed term.
 */
module Launchpad {
  import opened Wrappers
  import opened Text
  import opened Sequences

  /** One application tile (`AppDefinition`, without its glyph). */
  datatype AppDefinition = AppDefinition(name: string, keywords: Option<seq<string>>)

  /** The eighteen apps the Launchpad offers, in display order. */
  const MockApps: seq<AppDefinition> := [
    AppDefinition("Mail", Some(["email", "messages", "outlook"])),
    AppDefinition("Calendar", Some(["schedule", "events", "appointments"])),
    AppDefinition("Photos", Some(["images", "gallery", "pictures"])),
    AppDefinition("Notes", Some(["text", "memos", "editor"])),
    AppDefinition("Reminders", Some(["todo", "tasks", "list"])),
    AppDefinition("Maps", Some(["navigation", "directions", "places"])),
    AppDefinition("Messages", Some(["chat", "sms", "imessage"])),
    AppDefinition("FaceTime", Some(["video call", "conference"])),
    AppDefinition("System Settings", Some(["preferences", "configuration", "control panel"])),
    AppDefinition("App Store", Some(["applications", "download", "software"])),
    AppDefinition("Calculator", Some(["math", "numbers", "sum"])),
    AppDefinition("Terminal", Some(["command line", "shell", "bash", "code"])),
    AppDefinition("Safari", Some(["browser", "web", "internet"])),
    AppDefinition("QuickTime Player", Some(["video", "player", "media"])),
    AppDefinition("Voice Memos", Some(["audio", "record", "sound"])),
    AppDefinition("Stocks", Some(["finance", "market", "shares"])),
    AppDefinition("Weather", Some(["forecast", "temperature"])),
    AppDefinition("Clock", Some(["time", "alarm", "stopwatch"]))
  ]

  /** `text` contains `term`, both lower-cased. */
  predicate MatchesIgnoringCase(text: string, term: string) {
    Contains(ToLower(text), ToLower(term))
  }

  /** At least one keyword contains the term, both lower-cased. */
  predicate SomeKeywordMatches(keywords: seq<string>, term: string) {
    exists k :: 0 <= k < |keywords| && MatchesIgnoringCase(keywords[k], term)
  }

  /** The `filteredApps` test: the name matches, or the app has keywords and one of them matches. */
  predicate AppMatches(app: AppDefinition, term: string) {
    || MatchesIgnoringCase(app.name, term)
    || (app.keywords.Some? && SomeKeywordMatches(app.keywords.value, term))
  }

  /** `filteredApps`: the matching apps, in list order. */
  function FilteredApps(apps: seq<AppDefinition>, term: string): (r: seq<AppDefinition>)
    ensures forall a :: a in r <==> a in apps && AppMatches(a, term)
    ensures IsSubsequence(r, apps)
  {
    FilterIsSubsequence(apps, app => AppMatches(app, term));
    Filter(apps, app => AppMatches(app, term))
  }

  /** An app without keywords is found by its name alone. */
  lemma NoKeywordsMeansNameOnly(app: AppDefinition, term: string)
    requires app.keywords.None?
    ensures AppMatches(app, term) <==> MatchesIgnoringCase(app.name, term)
  {
  }

  /** An empty search box lists every app: all 18 of the catalog. */
  lemma EmptyTermListsAll(apps: seq<AppDefinition>)
    ensures FilteredApps(apps, "") == apps
    ensures |FilteredApps(MockApps, "")| == 18
  {
    forall i | 0 <= i < |apps|
      ensures AppMatches(apps[i], "")
    {
      ContainsEmpty(ToLower(apps[i].name));
    }
    FilterKeepsAll(apps, app => AppMatches(app, ""));
    forall i | 0 <= i < |MockApps|
      ensures AppMatches(MockApps[i], "")
    {
      ContainsEmpty(ToLower(MockApps[i].name));
    }
    FilterKeepsAll(MockApps, app => AppMatches(app, ""));
  }

  /** Whether the term is matched depends only on its lower-cased form. */
  lemma MatchIgnoresTermCase(app: AppDefinition, term: string)
    ensures AppMatches(app, ToUpper(term)) <==> AppMatches(app, term)
    ensures AppMatches(app, ToLower(term)) <==> AppMatches(app, term)
  {
    ToLowerIgnoresCase(term);
  }

  /** Typing the term in capitals, or in lower case, lists the same apps. */
  lemma SearchIgnoresCase(apps: seq<AppDefinition>, term: string)
    ensures FilteredApps(apps, ToUpper(term)) == FilteredApps(apps, term)
    ensures FilteredApps(apps, ToLower(term)) == FilteredApps(apps, term)
  {
    forall i | 0 <= i < |apps|
      ensures AppMatches(apps[i], ToUpper(term)) == AppMatches(apps[i], term)
      ensures AppMatches(apps[i], ToLower(term)) == AppMatches(apps[i], term)
    {
      MatchIgnoresTermCase(apps[i], term);
    }
    FilterCongruent(apps, app => AppMatches(app, ToUpper(term)), app => AppMatches(app, term));
    FilterCongruent(apps, app => AppMatches(app, ToLower(term)), app => AppMatches(app, term));
  }

  /** The "No results" message is shown exactly when the filter keeps no app. */
  predicate ShowsNoResults(apps: seq<AppDefinition>, term: string) {
    !(|FilteredApps(apps, term)| > 0)
  }

  /** The placeholder appears exactly when no app matches, and never for the empty catalog term. */
  lemma NoResultsIff(apps: seq<AppDefinition>, term: string)
    ensures ShowsNoResults(apps, term) <==> forall i :: 0 <= i < |apps| ==> !AppMatches(apps[i], term)
    ensures !ShowsNoResults(MockApps, "")
  {
    NoResultsWhenNoneMatch(apps, term);
    EmptyTermListsAll(MockApps);
  }

  /** The list is empty exactly when no app matches. */
  lemma NoResultsWhenNoneMatch(apps: seq<AppDefinition>, term: string)
    ensures |FilteredApps(apps, term)| == 0 <==> forall i :: 0 <= i < |apps| ==> !AppMatches(apps[i], term)
  {
    var r := FilteredApps(apps, term);
    if r != [] {
      assert r[0] in r;
    }
    if exists i :: 0 <= i < |apps| && AppMatches(apps[i], term) {
      var i :| 0 <= i < |apps| && AppMatches(apps[i], term);
      assert apps[i] in r;
    }
  }

  /** A keyword finds an app whose name does not mention it: "CONTROL" matches System Settings. */
  lemma KeywordFindsSystemSettings()
    ensures MockApps[8].name == "System Settings"
    ensures AppMatches(MockApps[8], "CONTROL")
  {
    var lowered := ToLower("CONTROL");
    assert lowered == "control" by {
      assert forall i :: 0 <= i < 7 ==> lowered[i] == LowerChar("CONTROL"[i]);
    }
    var keyword := ToLower(MockApps[8].keywords.value[2]);
    assert keyword[..7] == "control";
    assert IsPrefix(lowered, keyword);
  }
}
