/** Feed ingestion: JackettTorrentSourceService merges the items of its feeds into the torrent table. */
module Feeds {
  import opened Wrappers
  import opened Torrents

  /** An RSS item, and a JSON result; a missing field is None. */
  datatype RssItem = RssItem(guid: Option<string>, link: Option<string>)
  datatype JsonItem = JsonItem(guid: Option<string>, link: Option<string>)

  /** A feed as its fetch turns out: its items, or None when fetching or parsing it fails. */
  datatype Feed =
    | Rss(items: Option<seq<RssItem>>)
    | Json(results: Option<seq<JsonItem>>)
    | Unsupported

  datatype Entry = Entry(guid: string, url: string)

  predicate Truthy(s: Option<string>) {
    s.Some? && s.value != ""
  }

  /** `!guid || !link` skips the item. */
  function RssEntry(item: RssItem): Option<Entry> {
    if Truthy(item.guid) && Truthy(item.link) then Some(Entry(item.guid.value, item.link.value)) else None
  }

  /** A missing link is replaced by the guid if that is a magnet link. */
  function JsonEntry(item: JsonItem): Option<Entry> {
    if !Truthy(item.guid) then None
    else if Truthy(item.link) then Some(Entry(item.guid.value, item.link.value))
    else if IsMagnet(item.guid.value) then Some(Entry(item.guid.value, item.guid.value))
    else None
  }

  function RssEntries(items: seq<RssItem>): seq<Option<Entry>> {
    seq(|items|, k requires 0 <= k < |items| => RssEntry(items[k]))
  }

  function JsonEntries(items: seq<JsonItem>): seq<Option<Entry>> {
    seq(|items|, k requires 0 <= k < |items| => JsonEntry(items[k]))
  }

  function FeedEntries(feed: Feed): seq<Option<Entry>> {
    match feed
    case Rss(Some(items)) => RssEntries(items)
    case Json(Some(items)) => JsonEntries(items)
    case _ => []
  }

  function AllEntries(feeds: seq<Feed>): seq<Option<Entry>> {
    if feeds == [] then [] else AllEntries(feeds[..|feeds| - 1]) + FeedEntries(feeds[|feeds| - 1])
  }

  /** Insert one entry unless its guid is known. The database stamps the new row's creation time. */
  function MergeOne(rows: Table, entry: Option<Entry>, stamp: nat -> nat): Table {
    if entry.None? || HasGuid(rows, entry.value.guid) then rows
    else rows + [NewRow(entry.value.guid, entry.value.url, stamp(|rows|))]
  }

  function Merge(rows: Table, entries: seq<Option<Entry>>, stamp: nat -> nat): Table {
    if entries == [] then rows
    else MergeOne(Merge(rows, entries[..|entries| - 1], stamp), entries[|entries| - 1], stamp)
  }

  class JackettTorrentSourceService {
    var isTaskRunning: bool
    const torrentService: TorrentsService

    constructor (torrentService: TorrentsService)
      ensures this.torrentService == torrentService && !isTaskRunning
    {
      this.torrentService, isTaskRunning := torrentService, false;
    }

    method Insert(entry: Option<Entry>, stamp: nat -> nat)
      modifies torrentService
      ensures torrentService.rows == MergeOne(old(torrentService.rows), entry, stamp)
    {
      if entry.Some? && !HasGuid(torrentService.rows, entry.value.guid) {
        torrentService.Create(NewRow(entry.value.guid, entry.value.url, stamp(|torrentService.rows|)));
      }
    }

    method ProcessRssFeed(items: seq<RssItem>, stamp: nat -> nat)
      modifies torrentService
      ensures torrentService.rows == Merge(old(torrentService.rows), RssEntries(items), stamp)
      ensures DistinctGuids(old(torrentService.rows)) ==>
                Merged(old(torrentService.rows), torrentService.rows,
                       g => RssGives(items, g), (g, url) => RssFirst(items, g, url))
    {
      ghost var entries := RssEntries(items);
      for k := 0 to |items|
        invariant torrentService.rows == Merge(old(torrentService.rows), entries[..k], stamp)
      {
        assert entries[..k + 1][..k] == entries[..k];
        var RssItem(feedGuid, feedURL) := items[k];
        if !Truthy(feedGuid) || !Truthy(feedURL) {
          continue;
        }
        Insert(Some(Entry(feedGuid.value, feedURL.value)), stamp);
      }
      assert entries[..|items|] == entries;
      if DistinctGuids(old(torrentService.rows)) {
        RssMerged(old(torrentService.rows), items, stamp);
      }
    }

    method ProcessJsonFeed(results: seq<JsonItem>, stamp: nat -> nat)
      modifies torrentService
      ensures torrentService.rows == Merge(old(torrentService.rows), JsonEntries(results), stamp)
      ensures DistinctGuids(old(torrentService.rows)) ==>
                Merged(old(torrentService.rows), torrentService.rows,
                       g => JsonGives(results, g), (g, url) => JsonFirst(results, g, url))
    {
      ghost var entries := JsonEntries(results);
      for k := 0 to |results|
        invariant torrentService.rows == Merge(old(torrentService.rows), entries[..k], stamp)
      {
        assert entries[..k + 1][..k] == entries[..k];
        var torrentGuid := if Truthy(results[k].guid) then results[k].guid else None;
        var torrentLink := if Truthy(results[k].link) then results[k].link else None;
        if torrentLink.None? && torrentGuid.Some? && IsMagnet(torrentGuid.value) {
          torrentLink := torrentGuid;
        }
        if torrentGuid.None? || torrentLink.None? {
          continue;
        }
        Insert(Some(Entry(torrentGuid.value, torrentLink.value)), stamp);
      }
      assert entries[..|results|] == entries;
      if DistinctGuids(old(torrentService.rows)) {
        JsonMerged(old(torrentService.rows), results, stamp);
      }
    }

    /** One job with nothing else running: a disabled or overlapping one does nothing, any other merges all
        its feeds, skipping those that fail, and leaves the flag down. */
    method RunJob(disabled: bool, feeds: seq<Feed>, stamp: nat -> nat)
      modifies this, torrentService
      ensures isTaskRunning == old(isTaskRunning)
      ensures torrentService.rows == if disabled || old(isTaskRunning) then old(torrentService.rows)
                                     else Merge(old(torrentService.rows), AllEntries(feeds), stamp)
      ensures !disabled && !old(isTaskRunning) && DistinctGuids(old(torrentService.rows)) ==>
                Merged(old(torrentService.rows), torrentService.rows,
                       g => FeedsGive(feeds, g), (g, url) => FeedsFirst(feeds, g, url))
    {
      if disabled || isTaskRunning {
        return;
      }
      isTaskRunning := true;
      for k := 0 to |feeds|
        invariant torrentService.rows == Merge(old(torrentService.rows), AllEntries(feeds[..k]), stamp)
      {
        assert feeds[..k + 1][..k] == feeds[..k];
        MergeAppend(old(torrentService.rows), AllEntries(feeds[..k]), FeedEntries(feeds[k]), stamp);
        match feeds[k] {
          case Rss(Some(items)) => ProcessRssFeed(items, stamp);
          case Json(Some(results)) => ProcessJsonFeed(results, stamp);
          case _ =>
        }
      }
      assert feeds[..|feeds|] == feeds;
      if DistinctGuids(old(torrentService.rows)) {
        FeedsMerged(old(torrentService.rows), feeds, stamp);
      }
      isTaskRunning := false;
    }
  }

  lemma {:induction false} MergeAppend(rows: Table, a: seq<Option<Entry>>, b: seq<Option<Entry>>, stamp: nat -> nat)
    ensures Merge(rows, a + b, stamp) == Merge(Merge(rows, a, stamp), b, stamp)
  {
    if b == [] {
      assert a + b == a;
    } else {
      assert (a + b)[..|a + b| - 1] == a + b[..|b| - 1];
      MergeAppend(rows, a, b[..|b| - 1], stamp);
    }
  }

  // --- What a merge adds ---

  predicate Offers(entries: seq<Option<Entry>>, guid: string) {
    exists k :: 0 <= k < |entries| && entries[k].Some? && entries[k].value.guid == guid
  }

  /** The url of the first entry with `guid`. */
  function FirstUrl(entries: seq<Option<Entry>>, guid: string): string
    requires Offers(entries, guid)
  {
    if entries[0].Some? && entries[0].value.guid == guid then entries[0].value.url else FirstUrl(entries[1..], guid)
  }

  lemma {:induction false} FirstUrlAppend(entries: seq<Option<Entry>>, entry: Option<Entry>, guid: string)
    requires Offers(entries, guid)
    ensures Offers(entries + [entry], guid) && FirstUrl(entries + [entry], guid) == FirstUrl(entries, guid)
  {
    var all := entries + [entry];
    var k :| 0 <= k < |entries| && entries[k].Some? && entries[k].value.guid == guid;
    assert all[k] == entries[k];
    if !(entries[0].Some? && entries[0].value.guid == guid) {
      assert all[1..] == entries[1..] + [entry] && entries[1..][k - 1] == entries[k];
      FirstUrlAppend(entries[1..], entry, guid);
    }
  }

  lemma {:induction false} FirstUrlLast(entries: seq<Option<Entry>>, entry: Entry)
    requires !Offers(entries, entry.guid)
    ensures Offers(entries + [Some(entry)], entry.guid)
    ensures FirstUrl(entries + [Some(entry)], entry.guid) == entry.url
  {
    var all := entries + [Some(entry)];
    assert all[|entries|] == Some(entry);
    if entries != [] {
      assert all[1..] == entries[1..] + [Some(entry)];
      forall k | 0 <= k < |entries[1..]| ensures entries[1..][k] == entries[k + 1] {}
      FirstUrlLast(entries[1..], entry);
    }
  }

  /** The row the merge adds for a guid. */
  predicate IsAdded(row: Row, entries: seq<Option<Entry>>) {
    && Offers(entries, row.feedGuid) && row.feedURL == FirstUrl(entries, row.feedGuid)
    && row == NewRow(row.feedGuid, row.feedURL, row.createdAt)
  }

  /** A merge keeps every existing row as it is, adds a NEW invisible row for each valid unseen guid and for
      nothing else, takes the first url offered for it, and keeps the guids distinct. */
  lemma {:induction false} MergeIsExact(rows: Table, entries: seq<Option<Entry>>, stamp: nat -> nat)
    requires DistinctGuids(rows)
    ensures var r := Merge(rows, entries, stamp);
            && rows <= r && DistinctGuids(r)
            && (forall g :: HasGuid(r, g) <==> HasGuid(rows, g) || Offers(entries, g))
            && (forall k :: |rows| <= k < |r| ==> IsAdded(r[k], entries) && !HasGuid(rows, r[k].feedGuid))
  {
    if entries != [] {
      var init, last := entries[..|entries| - 1], entries[|entries| - 1];
      assert entries == init + [last];
      MergeIsExact(rows, init, stamp);
      MergeOneIsExact(rows, init, Merge(rows, init, stamp), last, stamp);
    }
  }

  lemma MergeOneIsExact(rows: Table, init: seq<Option<Entry>>, r: Table, last: Option<Entry>, stamp: nat -> nat)
    requires rows <= r && DistinctGuids(r)
    requires forall g :: HasGuid(r, g) <==> HasGuid(rows, g) || Offers(init, g)
    requires forall k :: |rows| <= k < |r| ==> IsAdded(r[k], init) && !HasGuid(rows, r[k].feedGuid)
    ensures var r' := MergeOne(r, last, stamp);
            var entries := init + [last];
            && rows <= r' && DistinctGuids(r')
            && (forall g :: HasGuid(r', g) <==> HasGuid(rows, g) || Offers(entries, g))
            && (forall k :: |rows| <= k < |r'| ==> IsAdded(r'[k], entries) && !HasGuid(rows, r'[k].feedGuid))
  {
    var r', entries := MergeOne(r, last, stamp), init + [last];
    forall g ensures Offers(entries, g) <==> Offers(init, g) || (last.Some? && last.value.guid == g) {
      assert entries[|init|] == last;
      assert forall k :: 0 <= k < |init| ==> entries[k] == init[k];
    }
    forall g ensures HasGuid(r', g) <==> HasGuid(r, g) || (last.Some? && last.value.guid == g) {
      assert forall k :: 0 <= k < |r| ==> r'[k] == r[k];
      if r' != r { assert r'[|r|].feedGuid == last.value.guid; }
    }
    forall k | |rows| <= k < |r'| ensures IsAdded(r'[k], entries) && !HasGuid(rows, r'[k].feedGuid) {
      if k < |r| {
        assert r'[k] == r[k];
        FirstUrlAppend(init, last, r[k].feedGuid);
      } else {
        FirstUrlLast(init, last.value);
      }
    }
    assert DistinctGuids(r') by {
      forall i, j | 0 <= i < j < |r'| ensures r'[i].feedGuid != r'[j].feedGuid {
        if j == |r| { assert !HasGuid(r, r'[j].feedGuid) && r'[i] == r[i]; }
      }
    }
  }

  lemma {:induction false} MergeKnown(rows: Table, entries: seq<Option<Entry>>, stamp: nat -> nat)
    requires forall g :: Offers(entries, g) ==> HasGuid(rows, g)
    ensures Merge(rows, entries, stamp) == rows
  {
    if entries != [] {
      var init, last := entries[..|entries| - 1], entries[|entries| - 1];
      forall g | Offers(init, g) ensures HasGuid(rows, g) {
        var k :| 0 <= k < |init| && init[k].Some? && init[k].value.guid == g;
        assert entries[k] == init[k];
        assert Offers(entries, g);
      }
      MergeKnown(rows, init, stamp);
      if last.Some? {
        assert Offers(entries, last.value.guid);
      }
    }
  }

  /** Merging the same feeds again changes nothing. */
  lemma MergeIsIdempotent(rows: Table, entries: seq<Option<Entry>>, stamp: nat -> nat, again: nat -> nat)
    requires DistinctGuids(rows)
    ensures Merge(Merge(rows, entries, stamp), entries, again) == Merge(rows, entries, stamp)
  {
    MergeIsExact(rows, entries, stamp);
    MergeKnown(Merge(rows, entries, stamp), entries, again);
  }

  // --- The same on the items of the feeds ---

  /** What a merge is meant to do: `gives` are the guids on offer, and `first` the first url offered for each. The
      rows that were there stay, in their places; a guid is there afterwards exactly if it was before or is on
      offer; and each row added is NEW, invisible and empty, with its guid's first url. */
  ghost predicate Merged(before: Table, after: Table, gives: string -> bool, first: (string, string) -> bool) {
    && before <= after && DistinctGuids(after)
    && (forall g :: HasGuid(after, g) <==> HasGuid(before, g) || gives(g))
    && (forall k :: |before| <= k < |after| ==>
          && !HasGuid(before, after[k].feedGuid) && first(after[k].feedGuid, after[k].feedURL)
          && after[k] == Row(after[k].feedGuid, after[k].feedURL, None, None, None, None, false, NEW, None,
                             after[k].createdAt))
  }

  /** An RSS item offers its guid and its link if neither is missing or empty. */
  predicate RssOffers(item: RssItem, guid: string, url: string) {
    item.guid == Some(guid) && guid != "" && item.link == Some(url) && url != ""
  }

  predicate RssHas(item: RssItem, guid: string) {
    item.guid == Some(guid) && guid != "" && item.link.Some? && item.link.value != ""
  }

  predicate RssGives(items: seq<RssItem>, guid: string) {
    exists k :: 0 <= k < |items| && RssHas(items[k], guid)
  }

  predicate RssFirst(items: seq<RssItem>, guid: string, url: string) {
    exists k :: 0 <= k < |items| && RssOffers(items[k], guid, url) && forall j :: 0 <= j < k ==> !RssHas(items[j], guid)
  }

  /** A JSON result likewise; where its link is missing or empty, a guid that starts with "magnet" stands in. */
  predicate JsonOffers(item: JsonItem, guid: string, url: string) {
    && item.guid == Some(guid) && guid != ""
    && if item.link.Some? && item.link.value != "" then item.link == Some(url) else "magnet" <= guid && url == guid
  }

  predicate JsonHas(item: JsonItem, guid: string) {
    item.guid == Some(guid) && guid != "" && ((item.link.Some? && item.link.value != "") || "magnet" <= guid)
  }

  predicate JsonGives(results: seq<JsonItem>, guid: string) {
    exists k :: 0 <= k < |results| && JsonHas(results[k], guid)
  }

  predicate JsonFirst(results: seq<JsonItem>, guid: string, url: string) {
    exists k ::
      && 0 <= k < |results| && JsonOffers(results[k], guid, url)
      && forall j :: 0 <= j < k ==> !JsonHas(results[j], guid)
  }

  /** A feed that could not be fetched, or of an unknown type, offers nothing. */
  predicate FeedGives(feed: Feed, guid: string) {
    match feed
    case Rss(Some(items)) => RssGives(items, guid)
    case Json(Some(results)) => JsonGives(results, guid)
    case _ => false
  }

  predicate FeedFirst(feed: Feed, guid: string, url: string) {
    match feed
    case Rss(Some(items)) => RssFirst(items, guid, url)
    case Json(Some(results)) => JsonFirst(results, guid, url)
    case _ => false
  }

  predicate FeedsGive(feeds: seq<Feed>, guid: string) {
    exists i :: 0 <= i < |feeds| && FeedGives(feeds[i], guid)
  }

  predicate FeedsFirst(feeds: seq<Feed>, guid: string, url: string) {
    exists i ::
      && 0 <= i < |feeds| && FeedFirst(feeds[i], guid, url)
      && forall j :: 0 <= j < i ==> !FeedGives(feeds[j], guid)
  }

  lemma {:induction false} FirstOffer(entries: seq<Option<Entry>>, guid: string) returns (k: nat)
    requires Offers(entries, guid)
    ensures k < |entries| && entries[k] == Some(Entry(guid, FirstUrl(entries, guid)))
    ensures forall j :: 0 <= j < k ==> !(entries[j].Some? && entries[j].value.guid == guid)
  {
    if entries[0].Some? && entries[0].value.guid == guid {
      k := 0;
    } else {
      var i :| 0 <= i < |entries| && entries[i].Some? && entries[i].value.guid == guid;
      assert entries[1..][i - 1] == entries[i];
      k := FirstOffer(entries[1..], guid);
      k := k + 1;
      forall j | 0 <= j < k ensures !(entries[j].Some? && entries[j].value.guid == guid) {
        if j > 0 { assert entries[1..][j - 1] == entries[j]; }
      }
    }
  }

  lemma RssIsFirst(items: seq<RssItem>, guid: string)
    ensures RssGives(items, guid) <==> Offers(RssEntries(items), guid)
    ensures Offers(RssEntries(items), guid) ==> RssFirst(items, guid, FirstUrl(RssEntries(items), guid))
  {
    var entries := RssEntries(items);
    forall k | 0 <= k < |items|
      ensures RssHas(items[k], guid) <==> entries[k].Some? && entries[k].value.guid == guid
    {
    }
    if Offers(entries, guid) {
      var k := FirstOffer(entries, guid);
      assert RssOffers(items[k], guid, FirstUrl(entries, guid));
    }
  }

  lemma JsonIsFirst(results: seq<JsonItem>, guid: string)
    ensures JsonGives(results, guid) <==> Offers(JsonEntries(results), guid)
    ensures Offers(JsonEntries(results), guid) ==> JsonFirst(results, guid, FirstUrl(JsonEntries(results), guid))
  {
    var entries := JsonEntries(results);
    forall k | 0 <= k < |results|
      ensures JsonHas(results[k], guid) <==> entries[k].Some? && entries[k].value.guid == guid
    {
    }
    if Offers(entries, guid) {
      var k := FirstOffer(entries, guid);
      assert JsonOffers(results[k], guid, FirstUrl(entries, guid));
    }
  }

  lemma FeedIsFirst(feed: Feed, guid: string)
    ensures FeedGives(feed, guid) <==> Offers(FeedEntries(feed), guid)
    ensures Offers(FeedEntries(feed), guid) ==> FeedFirst(feed, guid, FirstUrl(FeedEntries(feed), guid))
  {
    match feed
    case Rss(Some(items)) => RssIsFirst(items, guid);
    case Json(Some(results)) => JsonIsFirst(results, guid);
    case _ =>
  }

  lemma {:induction false} OffersConcat(a: seq<Option<Entry>>, b: seq<Option<Entry>>, guid: string)
    ensures Offers(a + b, guid) <==> Offers(a, guid) || Offers(b, guid)
    ensures Offers(a, guid) ==> FirstUrl(a + b, guid) == FirstUrl(a, guid)
    ensures !Offers(a, guid) && Offers(b, guid) ==> FirstUrl(a + b, guid) == FirstUrl(b, guid)
  {
    if a == [] {
      assert a + b == b;
    } else {
      assert (a + b)[0] == a[0] && (a + b)[1..] == a[1..] + b;
      OffersConcat(a[1..], b, guid);
      OffersCons(a, guid);
      OffersCons(a + b, guid);
    }
  }

  lemma OffersCons(entries: seq<Option<Entry>>, guid: string)
    requires entries != []
    ensures Offers(entries, guid) <==>
            (entries[0].Some? && entries[0].value.guid == guid) || Offers(entries[1..], guid)
  {
    if Offers(entries, guid) && !(entries[0].Some? && entries[0].value.guid == guid) {
      var k :| 0 <= k < |entries| && entries[k].Some? && entries[k].value.guid == guid;
      assert entries[1..][k - 1] == entries[k];
    }
  }

  lemma OneMoreFeed(init: seq<Feed>, last: Feed, guid: string, url: string)
    ensures FeedsGive(init + [last], guid) <==> FeedsGive(init, guid) || FeedGives(last, guid)
    ensures FeedsFirst(init, guid, url) ==> FeedsFirst(init + [last], guid, url)
    ensures !FeedsGive(init, guid) && FeedFirst(last, guid, url) ==> FeedsFirst(init + [last], guid, url)
  {
    hide FeedGives, FeedFirst;
    var feeds := init + [last];
    assert feeds[|init|] == last && forall j :: 0 <= j < |init| ==> feeds[j] == init[j];
    if FeedsFirst(init, guid, url) {
      var i :| 0 <= i < |init| && FeedFirst(init[i], guid, url)
               && forall j :: 0 <= j < i ==> !FeedGives(init[j], guid);
      assert FeedFirst(feeds[i], guid, url);
    }
  }

  lemma {:induction false} FeedsAreFirst(feeds: seq<Feed>, guid: string)
    ensures FeedsGive(feeds, guid) <==> Offers(AllEntries(feeds), guid)
    ensures Offers(AllEntries(feeds), guid) ==> FeedsFirst(feeds, guid, FirstUrl(AllEntries(feeds), guid))
  {
    hide FeedGives, FeedFirst, FeedEntries, FirstUrl, Offers, FeedsFirst;
    if feeds == [] {
      NothingOffered(guid);
    } else {
      var init, last := feeds[..|feeds| - 1], feeds[|feeds| - 1];
      assert feeds == init + [last];
      FeedsAreFirst(init, guid);
      FeedIsFirst(last, guid);
      OffersConcat(AllEntries(init), FeedEntries(last), guid);
      OneMoreFeed(init, last, guid, FirstUrlOr(AllEntries(feeds), guid));
    }
  }

  lemma NothingOffered(guid: string)
    ensures !Offers([], guid)
  {
  }

  function FirstUrlOr(entries: seq<Option<Entry>>, guid: string): string {
    if Offers(entries, guid) then FirstUrl(entries, guid) else ""
  }

  lemma MergedFrom(
      rows: Table, entries: seq<Option<Entry>>, stamp: nat -> nat, gives: string -> bool,
      first: (string, string) -> bool)
    requires DistinctGuids(rows)
    requires forall g :: gives(g) <==> Offers(entries, g)
    requires forall g :: Offers(entries, g) ==> first(g, FirstUrl(entries, g))
    ensures Merged(rows, Merge(rows, entries, stamp), gives, first)
  {
    MergeIsExact(rows, entries, stamp);
    var after := Merge(rows, entries, stamp);
    forall k | |rows| <= k < |after|
      ensures !HasGuid(rows, after[k].feedGuid) && first(after[k].feedGuid, after[k].feedURL)
              && after[k] == Row(after[k].feedGuid, after[k].feedURL, None, None, None, None, false, NEW, None,
                                 after[k].createdAt)
    {
      assert IsAdded(after[k], entries);
    }
  }

  /** Merging an RSS feed, a JSON feed, and all feeds of a job, in terms of their items. */
  lemma RssMerged(rows: Table, items: seq<RssItem>, stamp: nat -> nat)
    requires DistinctGuids(rows)
    ensures Merged(rows, Merge(rows, RssEntries(items), stamp),
                   g => RssGives(items, g), (g, url) => RssFirst(items, g, url))
  {
    forall g { RssIsFirst(items, g); }
    MergedFrom(rows, RssEntries(items), stamp, g => RssGives(items, g), (g, url) => RssFirst(items, g, url));
  }

  lemma JsonMerged(rows: Table, results: seq<JsonItem>, stamp: nat -> nat)
    requires DistinctGuids(rows)
    ensures Merged(rows, Merge(rows, JsonEntries(results), stamp),
                   g => JsonGives(results, g), (g, url) => JsonFirst(results, g, url))
  {
    forall g { JsonIsFirst(results, g); }
    MergedFrom(rows, JsonEntries(results), stamp, g => JsonGives(results, g), (g, url) => JsonFirst(results, g, url));
  }

  lemma FeedsMerged(rows: Table, feeds: seq<Feed>, stamp: nat -> nat)
    requires DistinctGuids(rows)
    ensures Merged(rows, Merge(rows, AllEntries(feeds), stamp),
                   g => FeedsGive(feeds, g), (g, url) => FeedsFirst(feeds, g, url))
  {
    forall g { FeedsAreFirst(feeds, g); }
    MergedFrom(rows, AllEntries(feeds), stamp, g => FeedsGive(feeds, g), (g, url) => FeedsFirst(feeds, g, url));
  }

  // --- One job at a time ---

  /** The flag and the jobs that are past it, over all interleavings of timer and start-up calls. */
  datatype Jobs = Jobs(isTaskRunning: bool, running: set<nat>)

  datatype JobStep = Begin(job: nat) | End(job: nat)

  /** Test and set happen without an await between them; the end, reached also after any error, clears. */
  function ApplyJob(s: Jobs, step: JobStep): Jobs {
    match step
    case Begin(job) => if s.isTaskRunning then s else Jobs(true, s.running + {job})
    case End(job) => if job in s.running then Jobs(false, s.running - {job}) else s
  }

  function ExecJobs(s: Jobs, steps: seq<JobStep>): Jobs {
    if steps == [] then s else ApplyJob(ExecJobs(s, steps[..|steps| - 1]), steps[|steps| - 1])
  }

  /** Unlike the indexer's flag, this one excludes: in any order of calls and ends, at most one job runs, and
      the flag is up exactly while it does. */
  lemma {:induction false} OneJobAtATime(steps: seq<JobStep>)
    ensures var s := ExecJobs(Jobs(false, {}), steps);
            if s.isTaskRunning then |s.running| == 1 else s.running == {}
  {
    if steps != [] {
      var init, last := steps[..|steps| - 1], steps[|steps| - 1];
      OneJobAtATime(init);
      var s := ExecJobs(Jobs(false, {}), init);
      if last.End? && last.job in s.running {
        assert |s.running - {last.job}| == 0;
      }
    }
  }
}
