/**
 Fetching one playlist's tracks: follow the catalog's pages until there is no
 next page or the accumulated entries reach the soft cap, then normalise every
 entry and keep the identifiable records.

 The catalog's answer for one playlist is a `Listing`: the first page, which
 the first request always returns, and the follow-up pages in order. A page
 has a "next" link exactly when another follow-up page comes after it.
 */
module Fetch {
  import opened Catalog

  type Page = seq<RawItem>

  datatype Listing = Listing(first: Page, followUps: seq<Page>)

  /** The default soft cap on the number of entries fetched for one playlist. */
  const MaxPerPlaylist: int := 150

  /** The entries of a run of pages, page after page. */
  function Concat(pages: seq<Page>): seq<RawItem>
  {
    if pages == [] then [] else Concat(pages[..|pages| - 1]) + pages[|pages| - 1]
  }

  /** The entries held after the first page and the first `n` follow-up pages. */
  function ItemsAfter(l: Listing, n: nat): seq<RawItem>
    requires n <= |l.followUps|
  {
    l.first + Concat(l.followUps[..n])
  }

  /** Every entry of the listing, as an uncapped fetch would collect them. */
  function AllItems(l: Listing): seq<RawItem>
  {
    ItemsAfter(l, |l.followUps|)
  }

  /**
   How many follow-up pages are read when `n` of them have been read already
   and the count has not yet been found to reach `cap`: reading stops at the
   last page, or right after a follow-up page brings the count to `cap`.
   */
  function PagesRead(l: Listing, cap: int, n: nat): (k: nat)
    requires n <= |l.followUps|
    decreases |l.followUps| - n
    ensures n <= k <= |l.followUps|
    ensures k == |l.followUps| || (n < k && |ItemsAfter(l, k)| >= cap)
    ensures forall j :: n < j < k ==> |ItemsAfter(l, j)| < cap
  {
    if n == |l.followUps| then n
    else if |ItemsAfter(l, n + 1)| >= cap then n + 1
    else PagesRead(l, cap, n + 1)
  }

  /** The number of follow-up pages the fetch reads. */
  function FollowUpsRead(l: Listing, cap: int): nat
  {
    PagesRead(l, cap, 0)
  }

  /** The entries the fetch collects before normalising them. */
  function FetchedItems(l: Listing, cap: int): seq<RawItem>
  {
    ItemsAfter(l, FollowUpsRead(l, cap))
  }

  /** The identifiable records among the normalised entries, in entry order. */
  function KeepIdentifiable(items: seq<RawItem>): (tracks: seq<TrackRecord>)
    ensures |tracks| <= |items|
    ensures forall t :: t in tracks ==> Identifiable(t)
    ensures forall t :: t in tracks ==> exists i :: 0 <= i < |items| && TrackToDict(TrackOf(items[i])) == t
  {
    if items == [] then []
    else
      var prefix := items[..|items| - 1];
      var td := TrackToDict(TrackOf(items[|items| - 1]));
      assert forall i :: 0 <= i < |prefix| ==> prefix[i] == items[i];
      KeepIdentifiable(prefix) + (if Identifiable(td) then [td] else [])
  }

  /** The records the fetch returns for a listing. */
  function FetchedTracks(l: Listing, cap: int): seq<TrackRecord>
  {
    KeepIdentifiable(FetchedItems(l, cap))
  }

  /** `_fetch_tracks_from_playlist`: paginate up to the soft cap, normalise, keep identifiable records. */
  method FetchTracks(l: Listing, maxPerPlaylist: int) returns (tracks: seq<TrackRecord>)
    ensures tracks == FetchedTracks(l, maxPerPlaylist)
    ensures forall t :: t in tracks ==> Identifiable(t)
  {
    var items := l.first;
    var n := 0;
    while n < |l.followUps|
      invariant n <= |l.followUps|
      invariant items == ItemsAfter(l, n)
      invariant PagesRead(l, maxPerPlaylist, n) == FollowUpsRead(l, maxPerPlaylist)
    {
      ItemsAfterNext(l, n);
      items := items + l.followUps[n];
      n := n + 1;
      if |items| >= maxPerPlaylist {
        assert PagesRead(l, maxPerPlaylist, n - 1) == n;
        break;
      }
    }
    assert items == FetchedItems(l, maxPerPlaylist);
    tracks := [];
    for i := 0 to |items|
      invariant tracks == KeepIdentifiable(items[..i])
    {
      assert items[..i + 1][..i] == items[..i];
      var td := TrackToDict(TrackOf(items[i]));
      if Identifiable(td) {
        tracks := tracks + [td];
      }
    }
    assert items[..|items|] == items;
  }

  // ---------------------------------------------------------------------------
  // Properties of the fetch

  lemma ItemsAfterNext(l: Listing, n: nat)
    requires n < |l.followUps|
    ensures ItemsAfter(l, n + 1) == ItemsAfter(l, n) + l.followUps[n]
  {
    assert l.followUps[..n + 1][..n] == l.followUps[..n];
  }

  /** Reading more pages only extends the entries held. */
  lemma {:induction false} ItemsAfterGrows(l: Listing, j: nat, k: nat)
    requires j <= k <= |l.followUps|
    ensures ItemsAfter(l, j) <= ItemsAfter(l, k)
    decreases k - j
  {
    if j < k {
      ItemsAfterNext(l, j);
      ItemsAfterGrows(l, j + 1, k);
    }
  }

  /** The fetched entries start with the first page and are a prefix of the whole listing. */
  lemma FetchedIsPrefix(l: Listing, cap: int)
    ensures l.first <= FetchedItems(l, cap) <= AllItems(l)
  {
    ItemsAfterGrows(l, 0, FollowUpsRead(l, cap));
    ItemsAfterGrows(l, FollowUpsRead(l, cap), |l.followUps|);
  }

  /** A cap above the listing's size is never reached: everything is fetched. */
  lemma UncappedFetchReadsAll(l: Listing, cap: int)
    requires |AllItems(l)| < cap
    ensures FetchedItems(l, cap) == AllItems(l)
  {
    ItemsAfterGrows(l, FollowUpsRead(l, cap), |l.followUps|);
  }

  /**
   The first page is never compared with the cap: even when it alone reaches
   the cap, one follow-up page is read if there is one.
   */
  lemma FirstPageNotCapped(l: Listing, cap: int)
    requires |l.followUps| > 0 && |l.first| >= cap
    ensures FollowUpsRead(l, cap) == 1
    ensures FetchedItems(l, cap) == l.first + l.followUps[0]
  {
    ItemsAfterNext(l, 0);
    assert ItemsAfter(l, 0) == l.first;
  }

  /**
   The cap is soft: the fetch stops at the first follow-up page that brings the
   count to the cap, so before that page the count was below it.
   */
  lemma CapOvershootsByOnePage(l: Listing, cap: int)
    requires FollowUpsRead(l, cap) >= 2
    ensures |ItemsAfter(l, FollowUpsRead(l, cap) - 1)| < cap
    ensures |FetchedItems(l, cap)| < cap + |l.followUps[FollowUpsRead(l, cap) - 1]|
  {
    ItemsAfterNext(l, FollowUpsRead(l, cap) - 1);
  }

  /** Normalising and filtering works entry by entry, so it keeps the entries' order across pages. */
  lemma {:induction false} KeepIdentifiableAppend(a: seq<RawItem>, b: seq<RawItem>)
    ensures KeepIdentifiable(a + b) == KeepIdentifiable(a) + KeepIdentifiable(b)
    decreases |b|
  {
    if b == [] {
      assert a + b == a;
    } else {
      var b' := b[..|b| - 1];
      assert (a + b)[..|a + b| - 1] == a + b';
      assert (a + b)[|a + b| - 1] == b[|b| - 1];
      KeepIdentifiableAppend(a, b');
    }
  }

  /** Every entry whose normalised record has a key reaches the fetched records. */
  lemma {:induction false} KeepIdentifiableComplete(items: seq<RawItem>, i: nat)
    requires i < |items| && Identifiable(TrackToDict(TrackOf(items[i])))
    ensures TrackToDict(TrackOf(items[i])) in KeepIdentifiable(items)
    decreases |items|
  {
    var prefix := items[..|items| - 1];
    if i < |items| - 1 {
      assert prefix[i] == items[i];
      KeepIdentifiableComplete(prefix, i);
    }
  }

  /** An entry with no track payload contributes nothing to the fetched records. */
  lemma EntryWithoutTrackDropped(a: seq<RawItem>, item: RawItem, b: seq<RawItem>)
    requires TrackOf(item).None?
    ensures KeepIdentifiable(a + [item] + b) == KeepIdentifiable(a + b)
  {
    assert KeepIdentifiable([item]) == [] by {
      assert [item][..0] == [];
    }
    KeepIdentifiableAppend(a, [item]);
    KeepIdentifiableAppend(a + [item], b);
    KeepIdentifiableAppend(a, b);
  }
}
