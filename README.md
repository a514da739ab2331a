# russ navigation core in Dafny

This project models the navigation core of the russ terminal feed reader, `App` in `src/app.rs`.
The core is a state machine over three views:
- the feed list (`Feeds`);
- the entry list of the current feed (`Entries`);
- one open entry (`Entry(snapshot)`).

The core keeps two selectable lists (feed titles and entries), a read filter (`ShowAll` or
`ShowUnread`), a scroll offset, a remembered entry row (`entry_selection_position`) and cached
copies of the current feed and entry. It keeps these in step with the feed store.

Modules:

- `Wrappers`: `Option`, `Result` and `Outcome` (Rust's `Result<(), Error>`).
- `Rss`: the store the core talks to, as a value. It holds the feeds and the entries, and each entry carries its read flag.
  - `get_feed_titles`, `get_feed`, `get_entries`, `get_entry` and `toggle_read` are functions of that value.
  - `toggle_read` is a method on the entry copy the core holds. It stores the opposite of that copy's flag.
  - `subscribe_to_feed` and `refresh_feed` are store updates. The data that the network fetch returned is passed to them as parameters.
- `StatefulLists`: `util::StatefulList`, an item sequence plus an optional selected row, with cyclic `Next` and `Previous`.
- `Transitions`: the application's fields as a record, `State`, with one function per `App` method.
  - Each function's contract states what the method promises: the view changes, the selection rules, the reload rules, the scroll bounds and the error outcomes.
  - The lemmas relate several operations: round trips, a full cycle, toggling twice, and a key-by-key reading scenario.
- `Navigation`: the class `App`, with the source's fields. Each method updates them step by step, as the Rust code does.
  - Each method is proved to produce exactly the state and outcome that its `Transitions` function gives: the function of the same name, `New` for the constructor and `SelectedEntry` for `GetSelectedEntry`. `SelectFeeds` has no function; its contract states the new state directly.
  - Each method is proved to preserve the invariant `Valid()`: selections point into their lists, the scroll offset fits in a `u16`, and store ids are unique.

Where the code behaves in a way a reader might not expect, the model follows the code:

- `on_esc` (src/app.rs:293-299) only switches back to the entry list. It keeps the scroll offset and the entry text. Only `on_left` resets the scroll and drops the text.
  - `on_enter` does not reset the scroll either. So opening an entry, scrolling, pressing escape and opening another entry shows the new entry scrolled (`Transitions.EscDownEnterKeepsScroll`).
- `toggle_read_mode` flips the filter only in the two list views. But it reloads the entries and resets the entry selection in every view, the detail view included.
- From the entry list, `toggle_read` acts only when there is a current entry.
- `on_right` from the feed list selects row 0 but does not update `entry_selection_position`.
- From the entry list, `toggle_read` acts on `current_entry`, which is refreshed only when the reloaded list has a selected row. After the only unread entry is marked read under `ShowUnread`, the list is empty and `current_entry` still holds the unread copy. A second toggle then marks the entry read again and changes nothing (`Transitions.ToggleFromListWithStaleCopy`). In the code, reloading that empty list runs through the `len - 1` underflow recorded under "## Findings": a debug build panics there, and only a release build goes on with the stale `current_entry`. The model follows the corrected reload.

## Model

| member | source | states |
|---|---|---|
| Rss.FeedTitles | src/app.rs:86-90 | one (id, title) pair per stored feed, in store order |
| Rss.GetFeed | src/app.rs:109-110 | succeeds exactly when a feed with the id is stored, and returns that stored feed; otherwise `NotFound` |
| Rss.GetEntry | src/app.rs:152-162 | succeeds exactly when an entry with the id is stored, and returns that stored entry; otherwise `NotFound` |
| Rss.GetEntries | src/app.rs:119-123 | lists exactly the stored entries of the feed that the read mode lets through (all, or the unread ones) |
| Rss.ToggleRead | src/app.rs:309-312 | the stored rows with the copy's id get the opposite of the copy's flag; ids, other entries and feeds are unchanged; unique ids stay unique |
| Rss.ToggleFreshCopyFlips | src/app.rs:309-312 | called on an up-to-date copy of a stored entry, the toggle flips that entry's stored flag |
| Rss.ToggleStaleCopy | src/app.rs:322-330 | toggling again on the same, now out-of-date copy leaves the store as the first toggle left it |
| Rss.MergeEntries | src/app.rs:301-305 | stored entries are kept as a prefix; every fetched entry's id is stored afterwards; every new row is a fetched entry whose id was not stored before, made unread and attached to the refreshed feed; unique ids stay unique |
| Rss.MergedRowsAreFetched | src/app.rs:301-305 | the rows appended by one merge step and the merges after it are fetched entries whose ids were not stored before |
| Rss.Subscribe | src/app.rs:145-146 | adds exactly one feed, with a fresh id, the subscribed link and the fetched title; existing feeds and entries are kept; every fetched entry is stored afterwards; every new row is a fetched entry, unread and attached to the new feed |
| Rss.GetStoredEntry | src/app.rs:152-162 | with unique ids, looking up a stored entry's id returns exactly that entry |
| Rss.ToggleReadFlips | src/app.rs:309-316 | after a toggle on a stored entry, `get_entry` sees the entry with its read flag flipped |
| Rss.ToggleReadTwice | src/app.rs:309-336 | toggling a stored entry, then toggling again on the updated copy, restores the store |
| Rss.ToggledReadIsHidden | src/app.rs:309-330 | toggling an unread copy hides its entry from the `ShowUnread` listing of every feed |
| Rss.UnreadFiltersAll | src/app.rs:118-123 | the `ShowUnread` listing is the `ShowAll` listing with read entries removed, order kept |
| Rss.ListedFeedResolves | src/app.rs:98-111 | every row of the feed-title list resolves with `get_feed` to the feed it was listed from |
| StatefulLists.StatefulList.SelectedItem | src/app.rs:152-154 | present exactly when the selected row exists, and is then the item at that row |
| StatefulLists.StatefulList.Next | src/app.rs:193-199 | no change on an empty list; row 0 when nothing is selected; otherwise the next row modulo the length; the result is a valid selection |
| StatefulLists.StatefulList.Previous | src/app.rs:167-173 | no change on an empty list; row 0 when nothing is selected; otherwise the previous row modulo the length |
| StatefulLists.NextPreviousRoundTrip | src/app.rs:164-214 | `previous` undoes `next` and `next` undoes `previous` |
| StatefulLists.AdvanceAdd | src/app.rs:190-199 | moving down a + b times equals moving down a times, then b times |
| StatefulLists.AdvanceWithin | src/app.rs:190-199 | k moves down from row i, short of the end, land on row i + k |
| StatefulLists.FullCycle | src/app.rs:190-199 | as many moves down as there are rows return to the starting row |
| Transitions.RestoreIndex | src/app.rs:129-137 | the remembered row if it is still a row, else the last row, else (empty list) no row; never an invalid row |
| Transitions.RestoreIndexAsWritten | src/app.rs:129-137 | the row the code computes; a valid row on every non-empty list |
| Transitions.RestoreIndexAsWrittenUnderflows | src/app.rs:133-137 | on an empty list the code's `len - 1` is below zero, so it is not a `usize` row |
| Transitions.RestoreIndexAgrees | src/app.rs:129-137 | the corrected restore and the code agree on every non-empty list |
| Transitions.FlipReadMode | src/app.rs:339-348 | gives the other filter |
| Transitions.EntryText | src/app.rs:253-265 | the content, else the description, else the fixed placeholder |
| Transitions.UpdateFeedTitles | src/app.rs:86-90 | the feed list becomes the store's titles, with no row selected; nothing else changes |
| Transitions.UpdateCurrentFeed | src/app.rs:98-116 | empty list: no current feed; otherwise a missing selection becomes row 0, and the call succeeds exactly when the selected id is stored; on success the current feed is the selected row's feed; on failure `NotFound` and the current feed is kept |
| Transitions.UpdateCurrentEntries | src/app.rs:118-139 | the entry list becomes the store's entries for the current feed under the read mode (empty without a feed); the selection is the restored row; nothing else changes |
| Transitions.UpdateCurrentFeedAndEntries | src/app.rs:92-96 | the feed is reloaded; on success the entries are reloaded from it; on failure they are untouched |
| Transitions.SelectedEntry | src/app.rs:152-162 | present exactly when an entry row is selected; then the store's record with that row's id, or `NotFound` |
| Transitions.RefreshCurrentEntry | src/app.rs:174-177 | with a selected row, the current entry becomes that row's stored record, or `NotFound` leaves the state as it was; without one, nothing changes |
| Transitions.OnUp | src/app.rs:164-188 | Feeds: cyclic move up; the feed and entries are reloaded with the remembered row restored, or left as they were on failure, which happens, with `NotFound`, exactly when the newly selected feed is not stored; nothing else changes; Entries: no-op when empty, else the list moves up as `previous` does (row 0 from no selection), with the position remembered equal to the new row; the new row's entry becomes current, or the call fails with `NotFound` exactly when it is not stored; Entry: scroll minus one, but never below 0 |
| Transitions.OnDown | src/app.rs:190-214 | Feeds: cyclic move down; the feed and entries are reloaded with the remembered row restored, or left as they were on failure, which happens, with `NotFound`, exactly when the newly selected feed is not stored; nothing else changes; Entries: no-op when empty, else the list moves down as `next` does (row 0 from no selection), with the position remembered; the new row's entry becomes current, or the call fails with `NotFound` exactly when it is not stored; Entry: scroll plus one, up to the `u16` maximum |
| Transitions.OnEnter | src/app.rs:248-291 | the detail view opens exactly from a non-empty entry list with a current entry; the snapshot is that entry, and the text is chosen as `EntryText` chooses it; otherwise nothing changes |
| Transitions.OnRight | src/app.rs:216-232 | Feeds with entries: the entry list takes focus on row 0, and that row's entry becomes current, failing with `NotFound` exactly when it is not stored; Feeds without entries: nothing changes; Entries: as `on_enter`; Entry: nothing changes |
| Transitions.OnLeft | src/app.rs:234-246 | Entry: back to Entries with scroll 0 and no text; Entries: back to Feeds; Feeds: nothing changes |
| Transitions.OnEsc | src/app.rs:293-299 | Entry: back to Entries with scroll and text kept; otherwise nothing changes |
| Transitions.OnRefresh | src/app.rs:301-307 | a failed fetch changes nothing and returns its error; otherwise the fetched entries are merged into the selected feed, stored entries are kept, the feed list is unchanged, and the feed and entries are reloaded with the remembered row restored; the reload fails, with `NotFound`, exactly when the refreshed feed is not stored |
| Transitions.ToggleRead | src/app.rs:309-336 | never fails, since the reloaded rows come from the store; Entry: the store toggles on the snapshot, the entries are reloaded with the remembered row restored, and focus returns to Entries with scroll 0, the text kept; Entries: the same on the current entry, if any, without the focus change; Feeds: nothing changes; when the reloaded list has no selected row, the current entry is kept |
| Transitions.ToggleReadMode | src/app.rs:338-363 | never fails, since the reloaded rows come from the store; the filter flips only in Feeds and Entries; the entries are reloaded under the filter; the cursor is on row 0 if the list is non-empty, else no row is selected; with no selected row the current entry is kept |
| Transitions.SubscribeToFeed | src/app.rs:145-150 | a failed fetch changes nothing; otherwise the feed list is reloaded as the store's titles, with exactly one more row, titled with the fetched title, and no row selected; nothing else changes |
| Transitions.OnKey | src/app.rs:365-388 | dispatches each key as in the source; any other key changes nothing; only `j`, `k` and `r` can fail |
| Transitions.OneLevelAtATime | src/app.rs:365-388 | any key moves the focus among feed list, entry list and detail view by at most one level; the detail view is entered only from the entry list with `l`, on the current entry; while it stays open it shows the same entry |
| Transitions.New | src/app.rs:47-84 | starts in Feeds with `ShowUnread`, scroll 0, `Normal` mode, no quit request, no current entry or text, empty input and remembered row 0; the entry selection is restored from row 0; the feed list is the store's; the first feed is current; the entries are loaded; loading cannot fail |
| Transitions.UpTimesStopsAtTop | src/app.rs:180-184 | k presses of up in the detail view lower the scroll by k, stopping at 0, and change nothing else |
| Transitions.UpsThenDown | src/app.rs:180-210 | after at least `scroll` presses of up, one press of down leaves the scroll at 1 |
| Transitions.EntriesDownUpRoundTrip | src/app.rs:170-205 | in the entry list, down then up restores the selection and the remembered position |
| Transitions.EnterThenLeave | src/app.rs:234-299 | opening an entry, then `on_left`, gives scroll 0 and no text; `on_esc` instead keeps the scroll and the text |
| Transitions.ToggleReadModeTwice | src/app.rs:338-363 | toggling the filter twice from a list view restores the filter and reloads the same entries |
| Transitions.ListedFeedsLoad | src/app.rs:98-116 | while the feed list matches the store, reloading the current feed cannot fail |
| Transitions.ToggleReadHidesEntry | src/app.rs:309-321 | under `ShowUnread`, marking the open unread entry read removes it from the reloaded list |
| Transitions.ToggleFromListWithStaleCopy | src/app.rs:322-330 | when a toggle from the entry list leaves the list empty, the current entry keeps its old copy, and a second toggle leaves the store unchanged |
| Transitions.EscDownEnterKeepsScroll | src/app.rs:190-299 | escape, a move down and enter open the next entry at the scroll offset the previous entry was left at |
| Transitions.ReadingScenario | src/app.rs:164-299 | a concrete key sequence (right, down, right, down, escape) over feed 1 with entries 10 and 11 gives the listed views, rows, current entries and scroll offsets |
| Navigation.App.constructor | src/app.rs:47-84 | the object starts in the state `Transitions.New` gives |
| Navigation.App.UpdateFeedTitles | src/app.rs:86-90 | agrees with `Transitions.UpdateFeedTitles` |
| Navigation.App.UpdateCurrentFeedAndEntries | src/app.rs:92-96 | agrees with `Transitions.UpdateCurrentFeedAndEntries` |
| Navigation.App.UpdateCurrentFeed | src/app.rs:98-116 | agrees with `Transitions.UpdateCurrentFeed` |
| Navigation.App.UpdateCurrentEntries | src/app.rs:118-139 | agrees with `Transitions.UpdateCurrentEntries` (corrected empty case) |
| Navigation.App.GetSelectedEntry | src/app.rs:152-162 | returns what `Transitions.SelectedEntry` gives for the object's fields |
| Navigation.App.RefreshCurrentEntry | src/app.rs:174-177 | agrees with `Transitions.RefreshCurrentEntry` |
| Navigation.App.OnUp | src/app.rs:164-188 | agrees with `Transitions.OnUp` |
| Navigation.App.OnDown | src/app.rs:190-214 | agrees with `Transitions.OnDown` |
| Navigation.App.OnRight | src/app.rs:216-232 | agrees with `Transitions.OnRight` |
| Navigation.App.OnLeft | src/app.rs:234-246 | agrees with `Transitions.OnLeft` |
| Navigation.App.OnEnter | src/app.rs:248-291 | agrees with `Transitions.OnEnter` |
| Navigation.App.OnEsc | src/app.rs:293-299 | agrees with `Transitions.OnEsc` |
| Navigation.App.SelectFeeds | src/app.rs:141-143 | the feed list takes focus; nothing else changes |
| Navigation.App.SubscribeToFeed | src/app.rs:145-150 | agrees with `Transitions.SubscribeToFeed` |
| Navigation.App.OnRefresh | src/app.rs:301-307 | agrees with `Transitions.OnRefresh`; requires a selected feed row, which the source unwraps |
| Navigation.App.ToggleRead | src/app.rs:309-336 | agrees with `Transitions.ToggleRead` |
| Navigation.App.ToggleReadMode | src/app.rs:338-363 | agrees with `Transitions.ToggleReadMode` |
| Navigation.App.OnKey | src/app.rs:365-388 | agrees with `Transitions.OnKey`; requires that `on_right` succeeds for `l` and that a feed row is selected for `r` in the feed list, both of which the source unwraps |

## Findings

| source | as written | input that shows it | evidently intended | confidence | as-written member | corrected member |
|---|---|---|---|---|---|---|
| src/app.rs:133-137 | when the remembered row is out of range, selects `entries.items.len() - 1` | reloading an empty entry list: `App::new` on a store with no feeds, or a current feed with no unread entries under `ShowUnread`. `0usize - 1` panics in a debug build and selects the non-row `usize::MAX` in a release build | select no row when the list is empty | high; not executed | Transitions.RestoreIndexAsWritten (Transitions.RestoreIndexAsWrittenUnderflows) | Transitions.RestoreIndex |

## Left out

- `src/util.rs` is not part of this model. `StatefulList::next` and `previous` wrap around and select row 0 when nothing is selected. A list built from a vector (`.into()`) starts with no row selected.
- `StatefulList.Next`, `StatefulList.Previous`: doing nothing on an empty list is an assumption of the model. The entry-list calls (src/app.rs:171, src/app.rs:197) are guarded by an emptiness test, but the feed-list calls (src/app.rs:167, src/app.rs:193) are not. On an empty feed list the program may select the non-row 0, or compute `len - 1` in `usize` and underflow. The model keeps no selection there.
- `src/rss.rs` is not part of this model. Its queries and updates are the functions of `Rss`:
  - an entry's read flag is a stored boolean, and `toggle_read` on an entry copy stores the opposite of the copy's flag;
  - a refresh appends the fetched entries whose ids are not yet stored;
  - a new feed gets the id one past the largest in use, as SQLite row ids do.
- Opening the SQLite connection, `database_path` and `initialize_db`: database I/O. The constructor takes the store instead.
- Storage failures of SQLite: `NotFound` is the only error the store model produces. Network and parse failures of subscribing and refreshing arrive as the error in the fetch-result parameter.
- The network fetch of `subscribe_to_feed` and `refresh_feed`: its result is a parameter. The async/await is not modelled, because transitions run one at a time.
- `html2text::from_read` and the split into `tui::widgets::Text` lines in `on_enter`: foreign rendering code. The model keeps the chosen text.
- `on_tick` and `progress`: floating-point, and cosmetic only.
- `title`, `enhanced_graphics`, `error_flash`: display-only fields.
- Characters typed into `input` in editing mode: the main loop handles them, and it is not part of `App`.
- The publication timestamp of an entry: the core never reads it.
- The panics of `unwrap` in `on_refresh` and in `on_key` for `l` are preconditions of `OnRefresh` and `OnKey`. The one in `on_refresh` (src/app.rs:302) is reachable: `subscribe_to_feed` leaves the feed list with no row selected (`Transitions.SubscribeToFeed`), and on an empty store no row is ever selected, so `r` in the feed list would then panic. The model does not cover that call.
