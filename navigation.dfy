/** The reader's `App` (src/app.rs) as an object whose methods update its fields in place, step by
    step as the source does. Each method is proved to leave the object in the state, and to return
    the outcome, that the function of the same name in `Transitions` gives for the old state. */
module Navigation {
  import opened Wrappers
  import opened StatefulLists
  import Rss
  import T = Transitions

  class App {
    /** The database the source reaches through `conn`. */
    var store: Rss.Store
    var shouldQuit: bool
    var feedTitles: StatefulList<(int, string)>
    var entries: StatefulList<Rss.Entry>
    var selected: T.Selected
    var scroll: nat
    var currentEntry: Option<Rss.Entry>
    /** The text of the open entry, before it is rendered and split into lines; `None` stands for
        the source's empty vector. */
    var currentEntryText: Option<string>
    var currentFeed: Option<Rss.Feed>
    var input: string
    var mode: T.Mode
    var readMode: Rss.ReadMode
    var entrySelectionPosition: nat

    /** The object's fields as a value. */
    function AsState(): T.State
      reads this
    {
      T.State(store, shouldQuit, feedTitles, entries, selected, scroll, currentEntry,
              currentEntryText, currentFeed, input, mode, readMode, entrySelectionPosition)
    }

    predicate Valid()
      reads this
    {
      T.Inv(AsState())
    }

    /** `App::new` on an already opened store. */
    constructor (store: Rss.Store)
      requires Rss.Valid(store)
      ensures Valid() && AsState() == T.New(store).0
    {
      this.store := store;
      shouldQuit := false;
      feedTitles := StatefulList([], None);
      entries := StatefulList([], None);
      selected := T.Feeds;
      scroll := 0;
      currentEntry := None;
      currentEntryText := None;
      currentFeed := None;
      input := "";
      mode := T.Normal;
      readMode := Rss.ShowUnread;
      entrySelectionPosition := 0;
      new;
      UpdateFeedTitles();
      var _ := UpdateCurrentFeedAndEntries();
    }

    method UpdateFeedTitles()
      requires Valid()
      modifies this
      ensures Valid() && AsState() == T.UpdateFeedTitles(old(AsState()))
    {
      feedTitles := StatefulList(Rss.FeedTitles(store.feeds), None);
    }

    method UpdateCurrentFeedAndEntries() returns (r: Outcome<Rss.Error>)
      requires Valid()
      modifies this
      ensures Valid() && (AsState(), r) == T.UpdateCurrentFeedAndEntries(old(AsState()))
    {
      r := UpdateCurrentFeed();
      if r.Fail? {
        return;
      }
      UpdateCurrentEntries();
    }

    method UpdateCurrentFeed() returns (r: Outcome<Rss.Error>)
      requires Valid()
      modifies this
      ensures Valid() && (AsState(), r) == T.UpdateCurrentFeed(old(AsState()))
    {
      if feedTitles.items == [] {
        currentFeed := None;
        return Pass;
      }
      var idx: nat;
      match feedTitles.selected {
        case Some(i) =>
          idx := i;
        case None =>
          feedTitles := feedTitles.(selected := Some(0));
          idx := 0;
      }
      var feedId := feedTitles.items[idx].0;
      match Rss.GetFeed(store, feedId) {
        case Err(e) =>
          return Fail(e);
        case Ok(feed) =>
          currentFeed := Some(feed);
      }
      r := Pass;
    }

    /** The entry list is replaced by the store's and the remembered row is restored; on an empty
        list no row is selected. */
    method UpdateCurrentEntries()
      requires Valid()
      modifies this
      ensures Valid() && AsState() == T.UpdateCurrentEntries(old(AsState()))
    {
      var items := if currentFeed.Some? then Rss.GetEntries(store, readMode, currentFeed.value.id) else [];
      entries := StatefulList(items, None);
      if entrySelectionPosition < |entries.items| {
        entries := entries.(selected := Some(entrySelectionPosition));
      } else if entries.items == [] {
        entries := entries.(selected := None);
      } else {
        entries := entries.(selected := Some(|entries.items| - 1));
      }
    }

    method GetSelectedEntry() returns (r: Option<Result<Rss.Entry, Rss.Error>>)
      ensures r == T.SelectedEntry(AsState())
    {
      r := None;
      if entries.selected.Some? {
        var idx := entries.selected.value;
        if idx < |entries.items| {
          r := Some(Rss.GetEntry(store, entries.items[idx].id));
        }
      }
    }

    /** Fetches the entry of the selected row, if any, and makes it the current entry. */
    method RefreshCurrentEntry() returns (r: Outcome<Rss.Error>)
      requires Valid()
      modifies this
      ensures Valid() && (AsState(), r) == T.RefreshCurrentEntry(old(AsState()))
    {
      var found := GetSelectedEntry();
      match found {
        case None =>
        case Some(Err(e)) =>
          return Fail(e);
        case Some(Ok(entry)) =>
          currentEntry := Some(entry);
      }
      r := Pass;
    }

    method OnUp() returns (r: Outcome<Rss.Error>)
      requires Valid()
      modifies this
      ensures Valid() && (AsState(), r) == T.OnUp(old(AsState()))
    {
      match selected {
        case Feeds =>
          feedTitles := feedTitles.Previous();
          r := UpdateCurrentFeedAndEntries();
        case Entries =>
          r := Pass;
          if entries.items != [] {
            entries := entries.Previous();
            entrySelectionPosition := entries.selected.value;
            r := RefreshCurrentEntry();
          }
        case Entry(_) =>
          if scroll > 0 {
            scroll := scroll - 1;
          }
          r := Pass;
      }
    }

    method OnDown() returns (r: Outcome<Rss.Error>)
      requires Valid()
      modifies this
      ensures Valid() && (AsState(), r) == T.OnDown(old(AsState()))
    {
      match selected {
        case Feeds =>
          feedTitles := feedTitles.Next();
          r := UpdateCurrentFeedAndEntries();
        case Entries =>
          r := Pass;
          if entries.items != [] {
            entries := entries.Next();
            entrySelectionPosition := entries.selected.value;
            r := RefreshCurrentEntry();
          }
        case Entry(_) =>
          if scroll < T.MaxScroll {
            scroll := scroll + 1;
          }
          r := Pass;
      }
    }

    method OnRight() returns (r: Outcome<Rss.Error>)
      requires Valid()
      modifies this
      ensures Valid() && (AsState(), r) == T.OnRight(old(AsState()))
    {
      match selected {
        case Feeds =>
          r := Pass;
          if entries.items != [] {
            selected := T.Entries;
            entries := entries.(selected := Some(0));
            r := RefreshCurrentEntry();
          }
        case Entries =>
          OnEnter();
          r := Pass;
        case Entry(_) =>
          r := Pass;
      }
    }

    method OnLeft()
      requires Valid()
      modifies this
      ensures Valid() && AsState() == T.OnLeft(old(AsState()))
    {
      match selected {
        case Feeds =>
        case Entries =>
          selected := T.Feeds;
        case Entry(_) =>
          scroll := 0;
          currentEntryText := None;
          selected := T.Entries;
      }
    }

    method OnEnter()
      requires Valid()
      modifies this
      ensures Valid() && AsState() == T.OnEnter(old(AsState()))
    {
      if selected.Entries? && entries.items != [] {
        match currentEntry {
          case Some(entry) =>
            var text := T.EntryText(entry);
            selected := T.Entry(entry);
            currentEntryText := Some(text);
          case None =>
        }
      }
    }

    method OnEsc()
      requires Valid()
      modifies this
      ensures Valid() && AsState() == T.OnEsc(old(AsState()))
    {
      if selected.Entry? {
        selected := T.Entries;
      }
    }

    method SelectFeeds()
      requires Valid()
      modifies this
      ensures Valid() && AsState() == old(AsState()).(selected := T.Feeds)
    {
      selected := T.Feeds;
    }

    method SubscribeToFeed(fetched: Result<(string, seq<Rss.Entry>), Rss.Error>) returns (r: Outcome<Rss.Error>)
      requires Valid()
      modifies this
      ensures Valid() && (AsState(), r) == T.SubscribeToFeed(old(AsState()), fetched)
    {
      match fetched {
        case Err(e) =>
          return Fail(e);
        case Ok((title, items)) =>
          store := Rss.Subscribe(store, input, title, items);
      }
      feedTitles := StatefulList(Rss.FeedTitles(store.feeds), None);
      r := Pass;
    }

    method OnRefresh(fetched: Result<seq<Rss.Entry>, Rss.Error>) returns (r: Outcome<Rss.Error>)
      requires Valid() && feedTitles.selected.Some?
      modifies this
      ensures Valid() && (AsState(), r) == T.OnRefresh(old(AsState()), fetched)
    {
      var idx := feedTitles.selected.value;
      var feedId := feedTitles.items[idx].0;
      match fetched {
        case Err(e) =>
          return Fail(e);
        case Ok(items) =>
          store := Rss.MergeEntries(store, feedId, items);
      }
      r := UpdateCurrentFeedAndEntries();
    }

    method ToggleRead() returns (r: Outcome<Rss.Error>)
      requires Valid()
      modifies this
      ensures Valid() && (AsState(), r) == T.ToggleRead(old(AsState()))
    {
      match selected {
        case Entry(entry) =>
          store := Rss.ToggleRead(store, entry);
          UpdateCurrentEntries();
          r := RefreshCurrentEntry();
          if r.Fail? {
            return;
          }
          selected := T.Entries;
          scroll := 0;
        case Entries =>
          r := Pass;
          if currentEntry.Some? {
            store := Rss.ToggleRead(store, currentEntry.value);
            UpdateCurrentEntries();
            r := RefreshCurrentEntry();
          }
        case Feeds =>
          r := Pass;
      }
    }

    method ToggleReadMode() returns (r: Outcome<Rss.Error>)
      requires Valid()
      modifies this
      ensures Valid() && (AsState(), r) == T.ToggleReadMode(old(AsState()))
    {
      if selected.Feeds? || selected.Entries? {
        readMode := T.FlipReadMode(readMode);
      }
      UpdateCurrentEntries();
      if entries.items != [] {
        entries := entries.(selected := Some(0));
      } else {
        entries := entries.(selected := None);
      }
      r := RefreshCurrentEntry();
    }

    /** The source unwraps `on_right`'s result for `l` and the feed selection for `r` in the feed
        list; both are required to succeed. */
    method OnKey(c: char, fetched: Result<seq<Rss.Entry>, Rss.Error>) returns (r: Outcome<Rss.Error>)
      requires Valid()
      requires c == 'l' ==> T.OnRight(AsState()).1.Pass?
      requires c == 'r' && selected.Feeds? ==> feedTitles.selected.Some?
      modifies this
      ensures Valid() && (AsState(), r) == T.OnKey(old(AsState()), c, fetched)
    {
      r := Pass;
      match c {
        case 'q' =>
          shouldQuit := true;
        case 'h' =>
          OnLeft();
        case 'j' =>
          r := OnDown();
        case 'k' =>
          r := OnUp();
        case 'l' =>
          r := OnRight();
        case 'r' =>
          if selected.Feeds? {
            r := OnRefresh(fetched);
          } else {
            r := ToggleRead();
          }
        case 'a' =>
          r := ToggleReadMode();
        case 'e' =>
          mode := T.Editing;
        case 'i' =>
          mode := T.Editing;
        case _ =>
      }
    }
  }
}
