/** The feed store that the navigation core reads and writes.

    In the program this is an SQLite database reached through `crate::rss`; here it is a value:
    the feeds in insertion order and the entries in insertion order, each entry carrying its own
    read flag. Every `get_*` call of the core becomes a function of that value, `toggle_read`
    becomes a function returning the updated store, and the two network-bound operations
    (subscribing to a feed, refreshing one) become store updates whose fetched data is given. */
module Rss {
  import opened Wrappers

  /** The errors the core can see. Only `NotFound` is produced by the store model itself;
      the others can only arrive with the result of a network fetch. */
  datatype Error = NotFound | Network | InvalidInput

  /** The read filter of `get_entries` (declared in src/app.rs as `ReadMode`). */
  datatype ReadMode = ShowAll | ShowUnread

  datatype Feed = Feed(id: int, title: string, link: string)

  datatype Entry = Entry(
    id: int,
    feedId: int,
    title: string,
    content: Option<string>,
    description: Option<string>,
    read: bool)

  datatype Store = Store(feeds: seq<Feed>, entries: seq<Entry>)

  /** Ids are primary keys: no two feeds and no two entries share one. */
  predicate Valid(s: Store) {
    && (forall i, j :: 0 <= i < j < |s.feeds| ==> s.feeds[i].id != s.feeds[j].id)
    && (forall i, j :: 0 <= i < j < |s.entries| ==> s.entries[i].id != s.entries[j].id)
  }

  /** Whether `get_entries` under `mode` lists entry `e`. */
  predicate Visible(e: Entry, mode: ReadMode) {
    mode == ShowAll || !e.read
  }

  /** `get_feed_titles`: the (id, title) pair of every feed, in store order. */
  function FeedTitles(feeds: seq<Feed>): (r: seq<(int, string)>)
    ensures |r| == |feeds|
    ensures forall i :: 0 <= i < |feeds| ==> r[i].0 == feeds[i].id && r[i].1 == feeds[i].title
  {
    if feeds == [] then [] else [(feeds[0].id, feeds[0].title)] + FeedTitles(feeds[1..])
  }

  function FindFeed(feeds: seq<Feed>, id: int): (r: Option<Feed>)
    ensures r.Some? ==> r.value in feeds && r.value.id == id
    ensures r.None? ==> forall f :: f in feeds ==> f.id != id
  {
    if feeds == [] then None
    else if feeds[0].id == id then Some(feeds[0])
    else FindFeed(feeds[1..], id)
  }

  /** `get_feed`: the feed with the given id, or `NotFound`. */
  function GetFeed(s: Store, id: int): (r: Result<Feed, Error>)
    ensures r.Ok? <==> exists f :: f in s.feeds && f.id == id
    ensures r.Ok? ==> r.value in s.feeds && r.value.id == id
    ensures r.Err? ==> r.error == NotFound
  {
    match FindFeed(s.feeds, id)
    case Some(f) => Ok(f)
    case None => Err(NotFound)
  }

  function FindEntry(entries: seq<Entry>, id: int): (r: Option<Entry>)
    ensures r.Some? ==> r.value in entries && r.value.id == id
    ensures r.None? ==> forall e :: e in entries ==> e.id != id
  {
    if entries == [] then None
    else if entries[0].id == id then Some(entries[0])
    else FindEntry(entries[1..], id)
  }

  /** `get_entry`: the entry with the given id, or `NotFound`. */
  function GetEntry(s: Store, id: int): (r: Result<Entry, Error>)
    ensures r.Ok? <==> exists e :: e in s.entries && e.id == id
    ensures r.Ok? ==> r.value in s.entries && r.value.id == id
    ensures r.Err? ==> r.error == NotFound
  {
    match FindEntry(s.entries, id)
    case Some(e) => Ok(e)
    case None => Err(NotFound)
  }

  function Matching(entries: seq<Entry>, feedId: int, mode: ReadMode): (r: seq<Entry>)
    ensures |r| <= |entries|
    ensures forall e :: e in r <==> e in entries && e.feedId == feedId && Visible(e, mode)
  {
    if entries == [] then []
    else if entries[0].feedId == feedId && Visible(entries[0], mode) then
      [entries[0]] + Matching(entries[1..], feedId, mode)
    else
      Matching(entries[1..], feedId, mode)
  }

  /** `get_entries`: the entries of feed `feedId` that `mode` lets through, in store order. */
  function GetEntries(s: Store, mode: ReadMode, feedId: int): (r: seq<Entry>)
    ensures |r| <= |s.entries|
    ensures forall e :: e in r <==> e in s.entries && e.feedId == feedId && Visible(e, mode)
  {
    Matching(s.entries, feedId, mode)
  }

  /** The entries with the read flag of every row with id `id` set to `read`. */
  function SetRead(entries: seq<Entry>, id: int, read: bool): (r: seq<Entry>)
    ensures |r| == |entries|
    ensures forall i :: 0 <= i < |entries| ==>
      r[i] == if entries[i].id == id then entries[i].(read := read) else entries[i]
  {
    if entries == [] then []
    else
      var e := entries[0];
      [if e.id == id then e.(read := read) else e] + SetRead(entries[1..], id, read)
  }

  /** `Entry::toggle_read` called on the copy `e` the caller holds: every stored row with `e`'s id
      gets the opposite of the flag in that copy, and nothing else changes. */
  function ToggleRead(s: Store, e: Entry): (r: Store)
    ensures r.feeds == s.feeds && |r.entries| == |s.entries|
    ensures forall i :: 0 <= i < |s.entries| ==>
      r.entries[i].id == s.entries[i].id &&
      r.entries[i] == if s.entries[i].id == e.id then s.entries[i].(read := !e.read) else s.entries[i]
    ensures Valid(s) ==> Valid(r)
  {
    s.(entries := SetRead(s.entries, e.id, !e.read))
  }

  /** Every row with id `id` with its stored flag flipped: what a toggle does to a store when the
      copy it is called on is up to date. */
  function FlipRead(entries: seq<Entry>, id: int): (r: seq<Entry>)
    ensures |r| == |entries|
    ensures forall i :: 0 <= i < |entries| ==>
      r[i] == if entries[i].id == id then entries[i].(read := !entries[i].read) else entries[i]
  {
    if entries == [] then []
    else
      var e := entries[0];
      [if e.id == id then e.(read := !e.read) else e] + FlipRead(entries[1..], id)
  }

  /** One fetched entry merged in: appended, unread and attached to feed `feedId`, unless an entry
      with its id is already stored. */
  function MergeEntry(s: Store, feedId: int, e: Entry): (r: Store)
    ensures r.feeds == s.feeds && s.entries <= r.entries
    ensures GetEntry(s, e.id).Ok? ==> r == s
    ensures GetEntry(s, e.id).Err? ==> r.entries == s.entries + [e.(feedId := feedId, read := false)]
    ensures GetEntry(r, e.id).Ok?
    ensures Valid(s) ==> Valid(r)
  {
    if GetEntry(s, e.id).Ok? then s
    else
      var r := s.(entries := s.entries + [e.(feedId := feedId, read := false)]);
      assert r.entries[|s.entries|] in r.entries;
      r
  }

  /** A store whose entries extend another's still holds every entry the first one holds. */
  lemma ExtendedStoreKeepsEntries(s: Store, r: Store, id: int)
    requires s.entries <= r.entries
    requires GetEntry(s, id).Ok?
    ensures GetEntry(r, id).Ok?
  {
  }

  /** `refresh_feed`, given what the fetch returned: each fetched entry whose id is not yet stored
      is appended, unread and attached to feed `feedId`; stored entries are kept as they are, and
      nothing else is added. */
  function MergeEntries(s: Store, feedId: int, fetched: seq<Entry>): (r: Store)
    decreases |fetched|
    ensures r.feeds == s.feeds && s.entries <= r.entries
    ensures forall k :: |s.entries| <= k < |r.entries| ==>
      && GetEntry(s, r.entries[k].id).Err?
      && exists e :: e in fetched && r.entries[k] == e.(feedId := feedId, read := false)
    ensures forall e :: e in fetched ==> GetEntry(r, e.id).Ok?
    ensures Valid(s) ==> Valid(r)
  {
    if fetched == [] then s
    else
      var s' := MergeEntry(s, feedId, fetched[0]);
      var r := MergeEntries(s', feedId, fetched[1..]);
      ExtendedStoreKeepsEntries(s', r, fetched[0].id);
      MergedRowsAreFetched(s, s', r, feedId, fetched);
      r
  }

  /** The rows one merge step and the merges after it append are rows of the fetched entries
      that were not stored before. */
  lemma MergedRowsAreFetched(s: Store, s': Store, r: Store, feedId: int, fetched: seq<Entry>)
    requires fetched != [] && s' == MergeEntry(s, feedId, fetched[0]) && s'.entries <= r.entries
    requires forall k :: |s'.entries| <= k < |r.entries| ==>
      && GetEntry(s', r.entries[k].id).Err?
      && exists e :: e in fetched[1..] && r.entries[k] == e.(feedId := feedId, read := false)
    ensures forall k :: |s.entries| <= k < |r.entries| ==>
      && GetEntry(s, r.entries[k].id).Err?
      && exists e :: e in fetched && r.entries[k] == e.(feedId := feedId, read := false)
  {
    forall k | |s.entries| <= k < |r.entries|
      ensures GetEntry(s, r.entries[k].id).Err?
      ensures exists e :: e in fetched && r.entries[k] == e.(feedId := feedId, read := false)
    {
      if k < |s'.entries| {
        assert r.entries[k] == s'.entries[k];
        assert k == |s.entries| && s'.entries[k] == fetched[0].(feedId := feedId, read := false);
      } else {
        var e :| e in fetched[1..] && r.entries[k] == e.(feedId := feedId, read := false);
        assert e in fetched;
        if GetEntry(s, r.entries[k].id).Ok? {
          ExtendedStoreKeepsEntries(s, s', r.entries[k].id);
        }
      }
    }
  }

  /** The id SQLite gives the next feed row: one past the largest id in use. */
  function NextFeedId(feeds: seq<Feed>): (r: int)
    ensures forall f :: f in feeds ==> f.id < r
  {
    if feeds == [] then 1
    else
      var rest := NextFeedId(feeds[1..]);
      if feeds[0].id < rest then rest else feeds[0].id + 1
  }

  /** `subscribe_to_feed`, given what fetching `link` returned (the feed's title and its entries):
      a new feed row with a fresh id, then its entries merged in as by `refresh_feed`. */
  function Subscribe(s: Store, link: string, title: string, fetched: seq<Entry>): (r: Store)
    ensures |r.feeds| == |s.feeds| + 1 && r.feeds[..|s.feeds|] == s.feeds
    ensures r.feeds[|s.feeds|].link == link && r.feeds[|s.feeds|].title == title
    ensures forall f :: f in s.feeds ==> f.id != r.feeds[|s.feeds|].id
    ensures s.entries <= r.entries
    ensures forall k :: |s.entries| <= k < |r.entries| ==>
      exists e :: e in fetched && r.entries[k] == e.(feedId := r.feeds[|s.feeds|].id, read := false)
    ensures forall e :: e in fetched ==> GetEntry(r, e.id).Ok?
    ensures Valid(s) ==> Valid(r)
  {
    var feed := Feed(NextFeedId(s.feeds), title, link);
    var t := s.(feeds := s.feeds + [feed]);
    assert Valid(s) ==> Valid(t) by {
      if Valid(s) {
        forall i | 0 <= i < |s.feeds|
          ensures t.feeds[i].id != feed.id
        {
          assert s.feeds[i] in s.feeds;
        }
      }
    }
    var r := MergeEntries(t, feed.id, fetched);
    assert r.feeds[|s.feeds|] == feed;
    r
  }

  /** With unique ids, `get_entry` on a stored entry's id gives back exactly that entry. */
  lemma GetStoredEntry(s: Store, e: Entry)
    requires Valid(s) && e in s.entries
    ensures GetEntry(s, e.id) == Ok(e)
  {
  }

  /** Called on an up-to-date copy of a stored entry, a toggle flips that entry's stored flag. */
  lemma ToggleFreshCopyFlips(s: Store, e: Entry)
    requires Valid(s) && e in s.entries
    ensures ToggleRead(s, e).entries == FlipRead(s.entries, e.id)
  {
    var r := ToggleRead(s, e).entries;
    forall i | 0 <= i < |s.entries| && s.entries[i].id == e.id
      ensures r[i] == FlipRead(s.entries, e.id)[i]
    {
      GetStoredEntry(s, e);
      GetStoredEntry(s, s.entries[i]);
    }
  }

  /** Toggling the read flag of a stored entry flips that entry's flag as `get_entry` sees it. */
  lemma ToggleReadFlips(s: Store, e: Entry)
    requires Valid(s) && e in s.entries
    ensures GetEntry(ToggleRead(s, e), e.id) == Ok(e.(read := !e.read))
  {
    var i :| 0 <= i < |s.entries| && s.entries[i] == e;
    var t := ToggleRead(s, e);
    assert t.entries[i] == e.(read := !e.read);
    GetStoredEntry(t, t.entries[i]);
  }

  /** Toggling again on the updated copy restores the store. */
  lemma ToggleReadTwice(s: Store, e: Entry)
    requires Valid(s) && e in s.entries
    ensures ToggleRead(ToggleRead(s, e), e.(read := !e.read)) == s
  {
    var t := ToggleRead(ToggleRead(s, e), e.(read := !e.read));
    forall i | 0 <= i < |s.entries|
      ensures t.entries[i] == s.entries[i]
    {
      if s.entries[i].id == e.id {
        GetStoredEntry(s, e);
        GetStoredEntry(s, s.entries[i]);
      }
    }
  }

  /** Toggling again on the same copy, which is no longer up to date, changes nothing: the
      entry stays toggled once. */
  lemma ToggleStaleCopy(s: Store, e: Entry)
    ensures ToggleRead(ToggleRead(s, e), e) == ToggleRead(s, e)
  {
  }

  /** Once an entry is marked read by a toggle, `get_entries` under `ShowUnread` no longer lists it. */
  lemma ToggledReadIsHidden(s: Store, e: Entry, feedId: int)
    requires !e.read
    ensures forall x :: x in GetEntries(ToggleRead(s, e), ShowUnread, feedId) ==> x.id != e.id
  {
  }

  /** The unread filter is the all-entries listing with the read entries taken out, order kept. */
  lemma {:induction false} UnreadFiltersAll(entries: seq<Entry>, feedId: int)
    ensures Matching(Matching(entries, feedId, ShowAll), feedId, ShowUnread)
         == Matching(entries, feedId, ShowUnread)
  {
    if entries != [] {
      UnreadFiltersAll(entries[1..], feedId);
      if entries[0].feedId == feedId {
        assert Matching(entries, feedId, ShowAll)[1..] == Matching(entries[1..], feedId, ShowAll);
      }
    }
  }

  /** Every row `get_feed_titles` lists resolves with `get_feed`. */
  lemma ListedFeedResolves(s: Store, i: nat)
    requires Valid(s) && i < |s.feeds|
    ensures GetFeed(s, FeedTitles(s.feeds)[i].0) == Ok(s.feeds[i])
  {
  }
}
