/** The navigation state machine of the reader (`App` in src/app.rs) as values: a record of the
    application's fields and one function per operation, giving the new record and the outcome.
    The class `Navigation.App` performs the same operations in place and is proved to agree with
    these functions; the properties of the state machine are stated here. */
module Transitions {
  import opened Wrappers
  import opened StatefulLists
  import Rss

  /** Which panel has focus. `Entry` carries a snapshot of the entry being read, taken on entering
      the detail view. */
  datatype Selected = Feeds | Entries | Entry(snapshot: Rss.Entry)

  /** Whether keys are commands (`Normal`) or go to the subscription input line (`Editing`). */
  datatype Mode = Editing | Normal

  datatype State = State(
    store: Rss.Store,
    shouldQuit: bool,
    feedTitles: StatefulList<(int, string)>,
    entries: StatefulList<Rss.Entry>,
    selected: Selected,
    scroll: nat,
    currentEntry: Option<Rss.Entry>,
    currentEntryText: Option<string>,
    currentFeed: Option<Rss.Feed>,
    input: string,
    mode: Mode,
    readMode: Rss.ReadMode,
    entrySelectionPosition: nat)

  /** `scroll` is a `u16`. */
  const MaxScroll: nat := 65535

  const Placeholder: string := "No content or description tag provided."

  /** Both selections point into their lists, the scroll offset fits its 16 bits and the store's
      ids are unique. */
  predicate Inv(s: State) {
    && Rss.Valid(s.store)
    && s.feedTitles.Valid()
    && s.entries.Valid()
    && s.scroll <= MaxScroll
  }

  /** The current feed is the feed of the selected row of the feed list, and there is none when
      that list is empty. */
  predicate FeedFollowsSelection(s: State) {
    if s.feedTitles.items == [] then s.currentFeed.None?
    else
      && s.feedTitles.SelectedItem().Some?
      && s.currentFeed.Some?
      && s.currentFeed.value.id == s.feedTitles.SelectedItem().value.0
      && s.currentFeed.value in s.store.feeds
  }

  /** The entry list is what the store lists for the current feed under the read mode, and is
      empty when there is no current feed. */
  predicate EntriesFollowFeed(s: State) {
    s.entries.items == if s.currentFeed.Some? then Rss.GetEntries(s.store, s.readMode, s.currentFeed.value.id) else []
  }

  /** When a row of the entry list is selected, the current entry is the stored entry of that row. */
  predicate CurrentEntryFollowsSelection(s: State) {
    s.entries.SelectedItem().Some? ==>
      && s.currentEntry.Some?
      && s.currentEntry.value.id == s.entries.SelectedItem().value.id
      && s.currentEntry.value in s.store.entries
  }

  /** The row restored after the entry list is reloaded: the remembered position if it is still a
      row, else the last row, else (empty list) no row at all. */
  function RestoreIndex(position: nat, len: nat): (r: Option<nat>)
    ensures r.None? <==> len == 0
    ensures r.Some? ==> r.value < len
    ensures position < len ==> r == Some(position)
    ensures 0 < len <= position ==> r == Some(len - 1)
  {
    if position < len then Some(position)
    else if len == 0 then None
    else Some(len - 1)
  }

  /** The row src/app.rs:129-137 selects, with `usize` arithmetic written out as integers: on an
      empty list `len - 1` leaves the range of `usize` (a panic in a debug build, the largest
      `usize` in a release build; neither is a row). */
  function RestoreIndexAsWritten(position: nat, len: nat): (r: int)
    ensures len > 0 ==> 0 <= r < len
  {
    if position < len then position else len - 1
  }

  /** The code as written selects no valid row when the reloaded list is empty. */
  lemma RestoreIndexAsWrittenUnderflows(position: nat)
    ensures RestoreIndexAsWritten(position, 0) < 0
  {
  }

  /** The corrected restore agrees with the code as written on every non-empty list. */
  lemma RestoreIndexAgrees(position: nat, len: nat)
    requires len > 0
    ensures RestoreIndex(position, len) == Some(RestoreIndexAsWritten(position, len))
  {
  }

  /** The `read_mode` toggle: the other filter. */
  function FlipReadMode(m: Rss.ReadMode): (r: Rss.ReadMode)
    ensures r != m
  {
    match m
    case ShowAll => Rss.ShowUnread
    case ShowUnread => Rss.ShowAll
  }

  /** The text shown for an entry: its content, else its description, else the placeholder. */
  function EntryText(e: Rss.Entry): (r: string)
    ensures e.content.Some? ==> r == e.content.value
    ensures e.content.None? && e.description.Some? ==> r == e.description.value
    ensures e.content.None? && e.description.None? ==> r == Placeholder
  {
    match e.content
    case Some(c) => c
    case None =>
      match e.description
      case Some(d) => d
      case None => Placeholder
  }

  /** The fields of a new `App` before anything is loaded. */
  function Initial(store: Rss.Store): State {
    State(
      store := store,
      shouldQuit := false,
      feedTitles := StatefulList([], None),
      entries := StatefulList([], None),
      selected := Feeds,
      scroll := 0,
      currentEntry := None,
      currentEntryText := None,
      currentFeed := None,
      input := "",
      mode := Normal,
      readMode := Rss.ShowUnread,
      entrySelectionPosition := 0)
  }

  /** `update_feed_titles`: the feed list is reloaded from the store, with no row selected. */
  function UpdateFeedTitles(s: State): (r: State)
    ensures r == s.(feedTitles := r.feedTitles)
    ensures |r.feedTitles.items| == |s.store.feeds| && r.feedTitles.selected.None?
    ensures forall i :: 0 <= i < |s.store.feeds| ==>
      r.feedTitles.items[i] == (s.store.feeds[i].id, s.store.feeds[i].title)
    ensures Inv(s) ==> Inv(r)
  {
    s.(feedTitles := StatefulList(Rss.FeedTitles(s.store.feeds), None))
  }

  /** `update_current_feed`. */
  function UpdateCurrentFeed(s: State): (r: (State, Outcome<Rss.Error>))
    requires Inv(s)
    ensures Inv(r.0)
    ensures r.0 == s.(feedTitles := r.0.feedTitles, currentFeed := r.0.currentFeed)
    ensures r.0.feedTitles.items == s.feedTitles.items
    ensures s.feedTitles.items == [] ==> r.0 == s.(currentFeed := None) && r.1 == Pass
    ensures s.feedTitles.items != [] ==>
      && r.0.feedTitles.selected == (if s.feedTitles.selected.None? then Some(0) else s.feedTitles.selected)
      && (r.1.Pass? <==> exists f :: f in s.store.feeds && f.id == r.0.feedTitles.SelectedItem().value.0)
    ensures r.1.Pass? ==> FeedFollowsSelection(r.0)
    ensures r.1.Fail? ==> r.0.currentFeed == s.currentFeed && r.1 == Fail(Rss.NotFound)
  {
    if s.feedTitles.items == [] then (s.(currentFeed := None), Pass)
    else
      var titles := if s.feedTitles.selected.None? then s.feedTitles.(selected := Some(0)) else s.feedTitles;
      var t := s.(feedTitles := titles);
      match Rss.GetFeed(s.store, titles.items[titles.selected.value].0)
      case Err(e) => (t, Fail(e))
      case Ok(f) => (t.(currentFeed := Some(f)), Pass)
  }

  /** `update_current_entries`, with the empty-list case defined as "no row selected". */
  function UpdateCurrentEntries(s: State): (r: State)
    requires Inv(s)
    ensures Inv(r)
    ensures r == s.(entries := r.entries)
    ensures EntriesFollowFeed(r)
    ensures r.entries.selected == RestoreIndex(s.entrySelectionPosition, |r.entries.items|)
  {
    var items := if s.currentFeed.Some? then Rss.GetEntries(s.store, s.readMode, s.currentFeed.value.id) else [];
    s.(entries := StatefulList(items, RestoreIndex(s.entrySelectionPosition, |items|)))
  }

  /** `update_current_feed_and_entries`: the entries are reloaded only if the feed was. */
  function UpdateCurrentFeedAndEntries(s: State): (r: (State, Outcome<Rss.Error>))
    requires Inv(s)
    ensures Inv(r.0)
    ensures r.0 == s.(feedTitles := r.0.feedTitles, currentFeed := r.0.currentFeed, entries := r.0.entries)
    ensures r.0.feedTitles == UpdateCurrentFeed(s).0.feedTitles && r.1 == UpdateCurrentFeed(s).1
    ensures r.1.Pass? ==>
      && FeedFollowsSelection(r.0) && EntriesFollowFeed(r.0)
      && r.0.entries.selected == RestoreIndex(s.entrySelectionPosition, |r.0.entries.items|)
    ensures r.1.Fail? ==> r.0.currentFeed == s.currentFeed && r.0.entries == s.entries
  {
    var (t, o) := UpdateCurrentFeed(s);
    if o.Fail? then (t, o) else (UpdateCurrentEntries(t), Pass)
  }

  /** `get_selected_entry`: when a row of the entry list is selected, the store's record for it. */
  function SelectedEntry(s: State): (r: Option<Result<Rss.Entry, Rss.Error>>)
    ensures r.Some? <==> s.entries.SelectedItem().Some?
    ensures r.Some? ==>
      var id := s.entries.SelectedItem().value.id;
      && (r.value.Ok? <==> exists e :: e in s.store.entries && e.id == id)
      && (r.value.Ok? ==> r.value.value.id == id && r.value.value in s.store.entries)
      && (r.value.Err? ==> r.value.error == Rss.NotFound)
  {
    match s.entries.SelectedItem()
    case Some(row) => Some(Rss.GetEntry(s.store, row.id))
    case None => None
  }

  /** The step that follows every entry-selection change in src/app.rs: if a row is selected,
      its record is fetched and becomes the current entry. */
  function RefreshCurrentEntry(s: State): (r: (State, Outcome<Rss.Error>))
    requires Inv(s)
    ensures Inv(r.0)
    ensures r.0 == s.(currentEntry := r.0.currentEntry)
    ensures s.entries.SelectedItem().None? ==> r == (s, Pass)
    ensures r.1.Pass? ==> CurrentEntryFollowsSelection(r.0)
    ensures r.1.Fail? ==> r == (s, Fail(Rss.NotFound))
    ensures r.1.Fail? <==> SelectedEntry(s).Some? && SelectedEntry(s).value.Err?
  {
    match SelectedEntry(s)
    case None => (s, Pass)
    case Some(Err(e)) => (s, Fail(e))
    case Some(Ok(e)) => (s.(currentEntry := Some(e)), Pass)
  }

  /** `on_up`. */
  function OnUp(s: State): (r: (State, Outcome<Rss.Error>))
    requires Inv(s)
    ensures Inv(r.0)
    ensures r.0.selected == s.selected && r.0.store == s.store && r.0.readMode == s.readMode
    // Feeds: the feed cursor moves up a row, cyclically, and the feed and its entries are reloaded.
    ensures s.selected.Feeds? ==>
      && r.0 == s.(feedTitles := r.0.feedTitles, currentFeed := r.0.currentFeed, entries := r.0.entries)
      && r.0.feedTitles.items == s.feedTitles.items
      && (s.feedTitles.items != [] ==> r.0.feedTitles.selected == s.feedTitles.Previous().selected)
      // The reload fails, with `NotFound`, exactly when the newly selected feed is not stored.
      && (s.feedTitles.items == [] ==> r.1 == Pass)
      && (s.feedTitles.items != [] ==>
            (r.1.Pass? <==> exists f :: f in s.store.feeds && f.id == r.0.feedTitles.SelectedItem().value.0))
      && (r.1.Fail? ==> r.1.error == Rss.NotFound)
      && (r.1.Pass? ==>
            && FeedFollowsSelection(r.0) && EntriesFollowFeed(r.0)
            && r.0.entries.selected == RestoreIndex(s.entrySelectionPosition, |r.0.entries.items|))
      && (r.1.Fail? ==> r.0.currentFeed == s.currentFeed && r.0.entries == s.entries)
    // Entries: the entry cursor moves up a row, cyclically, and is remembered; an empty list stays as it is.
    ensures s.selected.Entries? && s.entries.items == [] ==> r == (s, Pass)
    ensures s.selected.Entries? && s.entries.items != [] ==>
      && r.0 == s.(entries := r.0.entries, entrySelectionPosition := r.0.entrySelectionPosition,
                   currentEntry := r.0.currentEntry)
      && r.0.entries == s.entries.Previous()
      && r.0.entries.items == s.entries.items
      && r.0.entries.selected == Some(r.0.entrySelectionPosition)
      && (s.entries.selected.Some? ==>
            r.0.entrySelectionPosition == (s.entries.selected.value + |s.entries.items| - 1) % |s.entries.items|)
      // Fetching the newly selected entry fails, with `NotFound`, exactly when it is not stored.
      && (r.1.Pass? <==> exists e :: e in s.store.entries && e.id == r.0.entries.SelectedItem().value.id)
      && (r.1.Fail? ==> r.1.error == Rss.NotFound)
      && (r.1.Pass? ==> CurrentEntryFollowsSelection(r.0))
      && (r.1.Fail? ==> r.0.currentEntry == s.currentEntry)
    // Entry: the text scrolls up a line, but not past the top.
    ensures s.selected.Entry? ==>
      r.1 == Pass && r.0 == s.(scroll := r.0.scroll) && r.0.scroll == if s.scroll > 0 then s.scroll - 1 else 0
  {
    match s.selected
    case Feeds => UpdateCurrentFeedAndEntries(s.(feedTitles := s.feedTitles.Previous()))
    case Entries =>
      if s.entries.items == [] then (s, Pass)
      else
        var l := s.entries.Previous();
        RefreshCurrentEntry(s.(entries := l, entrySelectionPosition := l.selected.value))
    case Entry(_) =>
      (s.(scroll := if s.scroll == 0 then 0 else s.scroll - 1), Pass)
  }

  /** `on_down`. */
  function OnDown(s: State): (r: (State, Outcome<Rss.Error>))
    requires Inv(s)
    ensures Inv(r.0)
    ensures r.0.selected == s.selected && r.0.store == s.store && r.0.readMode == s.readMode
    // Feeds: the feed cursor moves down a row, cyclically, and the feed and its entries are reloaded.
    ensures s.selected.Feeds? ==>
      && r.0 == s.(feedTitles := r.0.feedTitles, currentFeed := r.0.currentFeed, entries := r.0.entries)
      && r.0.feedTitles.items == s.feedTitles.items
      && (s.feedTitles.items != [] ==> r.0.feedTitles.selected == s.feedTitles.Next().selected)
      // The reload fails, with `NotFound`, exactly when the newly selected feed is not stored.
      && (s.feedTitles.items == [] ==> r.1 == Pass)
      && (s.feedTitles.items != [] ==>
            (r.1.Pass? <==> exists f :: f in s.store.feeds && f.id == r.0.feedTitles.SelectedItem().value.0))
      && (r.1.Fail? ==> r.1.error == Rss.NotFound)
      && (r.1.Pass? ==>
            && FeedFollowsSelection(r.0) && EntriesFollowFeed(r.0)
            && r.0.entries.selected == RestoreIndex(s.entrySelectionPosition, |r.0.entries.items|))
      && (r.1.Fail? ==> r.0.currentFeed == s.currentFeed && r.0.entries == s.entries)
    // Entries: the entry cursor moves down a row, cyclically, and is remembered; an empty list stays as it is.
    ensures s.selected.Entries? && s.entries.items == [] ==> r == (s, Pass)
    ensures s.selected.Entries? && s.entries.items != [] ==>
      && r.0 == s.(entries := r.0.entries, entrySelectionPosition := r.0.entrySelectionPosition,
                   currentEntry := r.0.currentEntry)
      && r.0.entries == s.entries.Next()
      && r.0.entries.items == s.entries.items
      && r.0.entries.selected == Some(r.0.entrySelectionPosition)
      && (s.entries.selected.Some? ==>
            r.0.entrySelectionPosition == (s.entries.selected.value + 1) % |s.entries.items|)
      // Fetching the newly selected entry fails, with `NotFound`, exactly when it is not stored.
      && (r.1.Pass? <==> exists e :: e in s.store.entries && e.id == r.0.entries.SelectedItem().value.id)
      && (r.1.Fail? ==> r.1.error == Rss.NotFound)
      && (r.1.Pass? ==> CurrentEntryFollowsSelection(r.0))
      && (r.1.Fail? ==> r.0.currentEntry == s.currentEntry)
    // Entry: the text scrolls down a line, unless the 16-bit offset is already at its maximum.
    ensures s.selected.Entry? ==>
      r.1 == Pass && r.0 == s.(scroll := r.0.scroll) && r.0.scroll == if s.scroll < MaxScroll then s.scroll + 1 else MaxScroll
  {
    match s.selected
    case Feeds => UpdateCurrentFeedAndEntries(s.(feedTitles := s.feedTitles.Next()))
    case Entries =>
      if s.entries.items == [] then (s, Pass)
      else
        var l := s.entries.Next();
        RefreshCurrentEntry(s.(entries := l, entrySelectionPosition := l.selected.value))
    case Entry(_) =>
      (s.(scroll := if s.scroll < MaxScroll then s.scroll + 1 else s.scroll), Pass)
  }

  /** `on_enter`: from the entry list, with a current entry, the detail view opens on a snapshot
      of that entry and its text is chosen; otherwise nothing happens. */
  function OnEnter(s: State): (r: State)
    requires Inv(s)
    ensures Inv(r)
    ensures r.selected.Entry? && !s.selected.Entry? <==>
      s.selected.Entries? && s.entries.items != [] && s.currentEntry.Some?
    ensures s.selected.Entries? && s.entries.items != [] && s.currentEntry.Some? ==>
      && r == s.(selected := r.selected, currentEntryText := r.currentEntryText)
      && r.selected == Entry(s.currentEntry.value)
      && r.currentEntryText == Some(EntryText(s.currentEntry.value))
    ensures !(s.selected.Entries? && s.entries.items != [] && s.currentEntry.Some?) ==> r == s
  {
    if s.selected.Entries? && s.entries.items != [] && s.currentEntry.Some? then
      var e := s.currentEntry.value;
      s.(selected := Entry(e), currentEntryText := Some(EntryText(e)))
    else s
  }

  /** `on_right`: from the feed list into a non-empty entry list, on its first row; from the entry
      list into the detail view. */
  function OnRight(s: State): (r: (State, Outcome<Rss.Error>))
    requires Inv(s)
    ensures Inv(r.0)
    ensures s.selected.Feeds? && s.entries.items == [] ==> r == (s, Pass)
    ensures s.selected.Feeds? && s.entries.items != [] ==>
      && r.0 == s.(selected := Entries, entries := r.0.entries, currentEntry := r.0.currentEntry)
      && r.0.entries == s.entries.(selected := Some(0))
      && (r.1.Pass? <==> exists e :: e in s.store.entries && e.id == s.entries.items[0].id)
      && (r.1.Fail? ==> r.1.error == Rss.NotFound)
      && (r.1.Pass? ==> CurrentEntryFollowsSelection(r.0))
      && (r.1.Fail? ==> r.0.currentEntry == s.currentEntry)
    ensures s.selected.Entries? ==> r == (OnEnter(s), Pass)
    ensures s.selected.Entry? ==> r == (s, Pass)
  {
    match s.selected
    case Feeds =>
      if s.entries.items == [] then (s, Pass)
      else RefreshCurrentEntry(s.(selected := Entries, entries := s.entries.(selected := Some(0))))
    case Entries => (OnEnter(s), Pass)
    case Entry(_) => (s, Pass)
  }

  /** `on_left`: one level up. Leaving the detail view drops its text and resets the scroll. */
  function OnLeft(s: State): (r: State)
    requires Inv(s)
    ensures Inv(r)
    ensures s.selected.Feeds? ==> r == s
    ensures s.selected.Entries? ==> r == s.(selected := Feeds)
    ensures s.selected.Entry? ==> r == s.(selected := Entries, scroll := 0, currentEntryText := None)
  {
    match s.selected
    case Feeds => s
    case Entries => s.(selected := Feeds)
    case Entry(_) => s.(scroll := 0, currentEntryText := None, selected := Entries)
  }

  /** `on_esc`: leaves the detail view for the entry list, keeping the scroll offset and the text. */
  function OnEsc(s: State): (r: State)
    requires Inv(s)
    ensures Inv(r)
    ensures s.selected.Entry? ==> r == s.(selected := Entries)
    ensures !s.selected.Entry? ==> r == s
  {
    match s.selected
    case Entry(_) => s.(selected := Entries)
    case _ => s
  }

  /** `on_refresh`, given what fetching the selected feed returned. The source unwraps the feed
      selection, so a selected feed row is required. */
  function OnRefresh(s: State, fetched: Result<seq<Rss.Entry>, Rss.Error>): (r: (State, Outcome<Rss.Error>))
    requires Inv(s) && s.feedTitles.selected.Some?
    ensures Inv(r.0)
    ensures fetched.Err? ==> r == (s, Fail(fetched.error))
    ensures fetched.Ok? ==>
      var id := s.feedTitles.SelectedItem().value.0;
      && r.0.store == Rss.MergeEntries(s.store, id, fetched.value)
      && s.store.entries <= r.0.store.entries
      && r.0 == s.(store := r.0.store, currentFeed := r.0.currentFeed, entries := r.0.entries)
      // The reload fails, with `NotFound`, exactly when the refreshed feed is not stored.
      && (r.1.Pass? <==> exists f :: f in s.store.feeds && f.id == id)
      && (r.1.Fail? ==> r.1.error == Rss.NotFound)
      && (r.1.Pass? ==>
            && FeedFollowsSelection(r.0) && EntriesFollowFeed(r.0)
            && r.0.entries.selected == RestoreIndex(s.entrySelectionPosition, |r.0.entries.items|))
      && (r.1.Fail? ==> r.0.currentFeed == s.currentFeed && r.0.entries == s.entries)
  {
    var id := s.feedTitles.items[s.feedTitles.selected.value].0;
    match fetched
    case Err(e) => (s, Fail(e))
    case Ok(items) => UpdateCurrentFeedAndEntries(s.(store := Rss.MergeEntries(s.store, id, items)))
  }

  /** `toggle_read`. */
  function ToggleRead(s: State): (r: (State, Outcome<Rss.Error>))
    requires Inv(s)
    ensures Inv(r.0)
    // The reloaded rows come from the store, so fetching the selected one cannot fail.
    ensures r.1 == Pass
    ensures s.selected.Feeds? || (s.selected.Entries? && s.currentEntry.None?) ==> r == (s, Pass)
    // From the detail view: the stored entry gets the opposite of the snapshot's flag, the list is
    // reloaded, and on success the entry list takes focus again with the scroll reset; the text is kept.
    ensures s.selected.Entry? ==>
      && r.0 == s.(store := r.0.store, entries := r.0.entries, currentEntry := r.0.currentEntry,
                   selected := r.0.selected, scroll := r.0.scroll)
      && r.0.store == Rss.ToggleRead(s.store, s.selected.snapshot)
      && EntriesFollowFeed(r.0)
      && r.0.entries.selected == RestoreIndex(s.entrySelectionPosition, |r.0.entries.items|)
      && (r.1.Pass? ==> r.0.selected == Entries && r.0.scroll == 0 && CurrentEntryFollowsSelection(r.0))
      && (r.0.entries.SelectedItem().None? ==> r.0.currentEntry == s.currentEntry)
      && (r.1.Fail? ==> r.0.selected == s.selected && r.0.scroll == s.scroll && r.0.currentEntry == s.currentEntry)
    // From the entry list with a current entry: the stored entry gets the opposite of the current
    // entry's flag and the list is reloaded.
    ensures s.selected.Entries? && s.currentEntry.Some? ==>
      && r.0.store == Rss.ToggleRead(s.store, s.currentEntry.value)
      && r.0 == s.(store := r.0.store, entries := r.0.entries, currentEntry := r.0.currentEntry)
      && EntriesFollowFeed(r.0)
      && r.0.entries.selected == RestoreIndex(s.entrySelectionPosition, |r.0.entries.items|)
      && (r.1.Pass? ==> CurrentEntryFollowsSelection(r.0))
      && (r.0.entries.SelectedItem().None? ==> r.0.currentEntry == s.currentEntry)
      && (r.1.Fail? ==> r.0.currentEntry == s.currentEntry)
  {
    match s.selected
    case Entry(e) =>
      var t := UpdateCurrentEntries(s.(store := Rss.ToggleRead(s.store, e)));
      var (u, o) := RefreshCurrentEntry(t);
      if o.Fail? then (u, o) else (u.(selected := Entries, scroll := 0), Pass)
    case Entries =>
      if s.currentEntry.None? then (s, Pass)
      else RefreshCurrentEntry(UpdateCurrentEntries(s.(store := Rss.ToggleRead(s.store, s.currentEntry.value))))
    case Feeds => (s, Pass)
  }

  /** `toggle_read_mode`. */
  function ToggleReadMode(s: State): (r: (State, Outcome<Rss.Error>))
    requires Inv(s)
    ensures Inv(r.0)
    // The reloaded rows come from the store, so fetching the selected one cannot fail.
    ensures r.1 == Pass
    ensures r.0 == s.(readMode := r.0.readMode, entries := r.0.entries, currentEntry := r.0.currentEntry)
    // The filter flips in the two list views only.
    ensures r.0.readMode == if s.selected.Entry? then s.readMode else FlipReadMode(s.readMode)
    // The list is reloaded under the filter, and the cursor goes to its first row if there is one.
    ensures EntriesFollowFeed(r.0)
    ensures r.0.entries.selected == if r.0.entries.items == [] then None else Some(0)
    ensures r.1.Pass? ==> CurrentEntryFollowsSelection(r.0)
    ensures r.1.Fail? ==> r.0.currentEntry == s.currentEntry
    // With no row to refresh from, the current entry is kept as it was.
    ensures r.0.entries.SelectedItem().None? ==> r.0.currentEntry == s.currentEntry
  {
    var mode := if s.selected.Feeds? || s.selected.Entries? then FlipReadMode(s.readMode) else s.readMode;
    var t := UpdateCurrentEntries(s.(readMode := mode));
    var u := t.(entries := t.entries.(selected := if t.entries.items == [] then None else Some(0)));
    RefreshCurrentEntry(u)
  }

  /** `subscribe_to_feed`, given what fetching the URL typed into `input` returned (a title and
      the feed's entries): the store gains the feed and the feed list is reloaded. */
  function SubscribeToFeed(s: State, fetched: Result<(string, seq<Rss.Entry>), Rss.Error>): (r: (State, Outcome<Rss.Error>))
    requires Inv(s)
    ensures Inv(r.0)
    ensures fetched.Err? ==> r == (s, Fail(fetched.error))
    ensures fetched.Ok? ==>
      && r.1 == Pass
      && r.0 == s.(store := r.0.store, feedTitles := r.0.feedTitles)
      && r.0.store == Rss.Subscribe(s.store, s.input, fetched.value.0, fetched.value.1)
      && r.0.feedTitles.items == Rss.FeedTitles(r.0.store.feeds)
      && |r.0.feedTitles.items| == |s.store.feeds| + 1
      && r.0.feedTitles.items[|s.store.feeds|].1 == fetched.value.0
      && r.0.feedTitles.selected.None?
  {
    match fetched
    case Err(e) => (s, Fail(e))
    case Ok((title, items)) =>
      (UpdateFeedTitles(s.(store := Rss.Subscribe(s.store, s.input, title, items))), Pass)
  }

  /** `on_key`: the key bindings of normal mode. */
  function OnKey(s: State, c: char, fetched: Result<seq<Rss.Entry>, Rss.Error>): (r: (State, Outcome<Rss.Error>))
    requires Inv(s)
    requires c == 'l' ==> OnRight(s).1.Pass?
    requires c == 'r' && s.selected.Feeds? ==> s.feedTitles.selected.Some?
    ensures Inv(r.0)
    ensures c == 'q' ==> r == (s.(shouldQuit := true), Pass)
    ensures c == 'h' ==> r == (OnLeft(s), Pass)
    ensures c == 'j' ==> r == OnDown(s)
    ensures c == 'k' ==> r == OnUp(s)
    ensures c == 'l' ==> r == OnRight(s)
    ensures c == 'r' ==> r == if s.selected.Feeds? then OnRefresh(s, fetched) else ToggleRead(s)
    ensures c == 'a' ==> r == ToggleReadMode(s)
    ensures c == 'e' || c == 'i' ==> r == (s.(mode := Editing), Pass)
    ensures c !in "qhjklraei" ==> r == (s, Pass)
    // Only the moves and `r` can fail: the toggles reload rows that the store holds.
    ensures r.1.Fail? ==> c in "jkr"
  {
    match c
    case 'q' => (s.(shouldQuit := true), Pass)
    case 'h' => (OnLeft(s), Pass)
    case 'j' => OnDown(s)
    case 'k' => OnUp(s)
    case 'l' => OnRight(s)
    case 'r' => if s.selected.Feeds? then OnRefresh(s, fetched) else ToggleRead(s)
    case 'a' => ToggleReadMode(s)
    case 'e' => (s.(mode := Editing), Pass)
    case 'i' => (s.(mode := Editing), Pass)
    case _ => (s, Pass)
  }

  /** How deep the focus is: the feed list, the entry list, the detail view. */
  function Depth(v: Selected): nat {
    match v
    case Feeds => 0
    case Entries => 1
    case Entry(_) => 2
  }

  /** A key press moves the focus by at most one level. The detail view is only entered from the
      entry list with `l`, on the current entry, and while it stays open it keeps showing the same
      entry. */
  lemma OneLevelAtATime(s: State, c: char, fetched: Result<seq<Rss.Entry>, Rss.Error>)
    requires Inv(s)
    requires c == 'l' ==> OnRight(s).1.Pass?
    requires c == 'r' && s.selected.Feeds? ==> s.feedTitles.selected.Some?
    ensures var r := OnKey(s, c, fetched).0;
      Depth(s.selected) - 1 <= Depth(r.selected) <= Depth(s.selected) + 1
    ensures var r := OnKey(s, c, fetched).0;
      r.selected.Entry? && !s.selected.Entry? ==>
        c == 'l' && s.selected.Entries? && s.currentEntry == Some(r.selected.snapshot)
    ensures var r := OnKey(s, c, fetched).0;
      r.selected.Entry? && s.selected.Entry? ==> r.selected == s.selected
  {
  }

  /** `App::new` without the database: the initial fields, then the feed list, the first feed and
      its entries loaded from the store. Loading cannot fail, since every listed feed exists. */
  function New(store: Rss.Store): (r: (State, Outcome<Rss.Error>))
    requires Rss.Valid(store)
    ensures r.1 == Pass && Inv(r.0)
    ensures r.0 == Initial(store).(feedTitles := r.0.feedTitles, currentFeed := r.0.currentFeed,
                                   entries := r.0.entries)
    ensures r.0.selected == Feeds && r.0.readMode == Rss.ShowUnread && r.0.scroll == 0
    ensures r.0.entries.selected == RestoreIndex(0, |r.0.entries.items|)
    ensures r.0.feedTitles.items == Rss.FeedTitles(store.feeds)
    ensures store.feeds != [] ==> r.0.feedTitles.selected == Some(0) && r.0.currentFeed == Some(store.feeds[0])
    ensures FeedFollowsSelection(r.0) && EntriesFollowFeed(r.0)
  {
    var t := UpdateFeedTitles(Initial(store));
    if store.feeds == [] then UpdateCurrentFeedAndEntries(t)
    else
      Rss.ListedFeedResolves(store, 0);
      UpdateCurrentFeedAndEntries(t)
  }

  /** `on_up` pressed `k` times in the detail view. */
  function UpTimes(s: State, k: nat): (r: State)
    requires Inv(s) && s.selected.Entry?
    ensures Inv(r) && r.selected == s.selected
    decreases k
  {
    if k == 0 then s else UpTimes(OnUp(s).0, k - 1)
  }

  /** However many times `on_up` is pressed in the detail view, the scroll offset stops at 0 and
      nothing else changes. */
  lemma {:induction false} UpTimesStopsAtTop(s: State, k: nat)
    requires Inv(s) && s.selected.Entry?
    ensures UpTimes(s, k) == s.(scroll := if s.scroll >= k then s.scroll - k else 0)
    decreases k
  {
    if k > 0 {
      UpTimesStopsAtTop(OnUp(s).0, k - 1);
    }
  }

  /** After at least `scroll` presses of `on_up`, one `on_down` shows the second line. */
  lemma UpsThenDown(s: State, k: nat)
    requires Inv(s) && s.selected.Entry? && k >= s.scroll
    ensures OnDown(UpTimes(s, k)).0.scroll == 1
  {
    UpTimesStopsAtTop(s, k);
  }

  /** In the entry list, `on_down` then `on_up` puts the cursor and the remembered position back
      on the row it started from, whatever the store answered. */
  lemma EntriesDownUpRoundTrip(s: State)
    requires Inv(s) && s.selected.Entries? && s.entries.items != [] && s.entries.selected.Some?
    ensures OnUp(OnDown(s).0).0.entries == s.entries
    ensures OnUp(OnDown(s).0).0.entrySelectionPosition == s.entries.selected.value
  {
  }

  /** Opening an entry and leaving with `on_left` returns to the entry list with the scroll
      offset at 0 and the text dropped; leaving with `on_esc` keeps both. */
  lemma EnterThenLeave(s: State)
    requires Inv(s) && s.selected.Entries? && s.entries.items != [] && s.currentEntry.Some?
    ensures OnLeft(OnEnter(s)) == s.(scroll := 0, currentEntryText := None)
    ensures OnEsc(OnEnter(s)) == s.(currentEntryText := Some(EntryText(s.currentEntry.value)))
  {
  }

  /** Toggling the read mode twice from a list view restores the filter and reloads the same
      entries. */
  lemma ToggleReadModeTwice(s: State)
    requires Inv(s) && !s.selected.Entry?
    ensures var t := ToggleReadMode(ToggleReadMode(s).0).0;
      t.readMode == s.readMode && EntriesFollowFeed(t) && t.store == s.store && t.currentFeed == s.currentFeed
  {
  }

  /** While the feed list is the store's, reloading the current feed cannot fail. */
  lemma ListedFeedsLoad(s: State)
    requires Inv(s) && s.feedTitles.items == Rss.FeedTitles(s.store.feeds)
    ensures UpdateCurrentFeed(s).1 == Pass
  {
  }

  /** Marking an unread entry read from the detail view under `ShowUnread` takes it out of the
      reloaded entry list. */
  lemma ToggleReadHidesEntry(s: State)
    requires Inv(s) && s.selected.Entry? && s.readMode == Rss.ShowUnread && !s.selected.snapshot.read
    ensures forall e :: e in ToggleRead(s).0.entries.items ==> e.id != s.selected.snapshot.id
  {
    var t := ToggleRead(s).0;
    if t.currentFeed.Some? {
      Rss.ToggledReadIsHidden(s.store, s.selected.snapshot, t.currentFeed.value.id);
    }
  }

  /** The current entry is a copy that a toggle from the entry list does not refresh when the
      reloaded list has no row selected (under `ShowUnread`, marking the only unread entry read).
      A second toggle then acts on the same out-of-date copy and leaves the store as it is. */
  lemma ToggleFromListWithStaleCopy(s: State)
    requires Inv(s) && s.selected.Entries? && s.currentEntry.Some?
    requires ToggleRead(s).0.entries.items == []
    ensures var t := ToggleRead(s).0;
      && t.store == Rss.ToggleRead(s.store, s.currentEntry.value)
      && t.currentEntry == s.currentEntry
      && ToggleRead(t).0.store == t.store
  {
    Rss.ToggleStaleCopy(s.store, s.currentEntry.value);
  }

  /** Leaving the detail view with `on_esc`, moving to another row and opening it again shows the
      newly opened entry at the scroll offset the previous one was left at. */
  lemma EscDownEnterKeepsScroll(s: State)
    requires Inv(s) && s.selected.Entry? && s.entries.items != []
    ensures var t := OnDown(OnEsc(s)).0;
      && OnEnter(t).scroll == s.scroll
      && (t.currentEntry.Some? ==> OnEnter(t).selected == Entry(t.currentEntry.value))
  {
  }

  /** A store with feeds 1 ("A") and 2 ("B") and two unread entries, 10 and 11, of feed 1. */
  function ScenarioStore(): Rss.Store {
    Rss.Store(
      [Rss.Feed(1, "A", "http://a.example/feed"), Rss.Feed(2, "B", "http://b.example/feed")],
      [Rss.Entry(10, 1, "ten", None, Some("summary"), false),
       Rss.Entry(11, 1, "eleven", Some("body"), None, false)])
  }

  /** Reading an entry: into the list (row 0, entry 10), down (entry 11), open it, scroll down,
      leave with escape: back in the list with the scroll offset still at 1. */
  lemma ReadingScenario()
    ensures var e10 := ScenarioStore().entries[0];
            var e11 := ScenarioStore().entries[1];
            var s0 := New(ScenarioStore()).0;
            var s1 := OnRight(s0).0;
            var s2 := OnDown(s1).0;
            var s3 := OnRight(s2).0;
            var s4 := OnDown(s3).0;
            var s5 := OnEsc(s4);
            && s0.selected == Feeds && s0.entries.items == [e10, e11]
            && s1.selected == Entries && s1.entries.selected == Some(0) && s1.currentEntry == Some(e10)
            && s2.entries.selected == Some(1) && s2.currentEntry == Some(e11)
            && s3.selected == Entry(e11) && s3.scroll == 0 && s3.currentEntryText == Some("body")
            && s4.scroll == 1
            && s5.selected == Entries && s5.scroll == 1
  {
    var store := ScenarioStore();
    var e10, e11 := store.entries[0], store.entries[1];
    assert Rss.Valid(store);
    assert Rss.GetEntries(store, Rss.ShowUnread, 1) == [e10, e11] by {
      assert store.entries[1..][1..] == [];
    }
    Rss.GetStoredEntry(store, e10);
    Rss.GetStoredEntry(store, e11);
  }
}
