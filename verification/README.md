# Mood resolver model

This project models the Harmonist backend's mood resolver in Dafny. The
resolver turns a mood label such as "happy" into a shuffled, de-duplicated and
bounded list of track records from one of the mood's curated playlists. The
model has four modules, one per part of `Backend/spotify_api.py`:

- `Catalog` (catalog.dfy) models raw catalog records and `_track_to_dict`.
  It covers the choice of cover image, the comma-joined artist names and the
  mapping of a missing track to the empty record. It also defines the
  identifiable key `id or track_url`.
- `Fetch` (fetch.dfy) models `_fetch_tracks_from_playlist`:
  - it follows pages until there is no next page, or until a follow-up page
    brings the entry count to the soft cap of 150;
  - it then keeps the records that have a key.

  The catalog's answer for one playlist is a `Listing`. It holds a first page,
  which always exists, and the follow-up pages in order. A page has a "next"
  link exactly when another follow-up page comes after it.
- `Moods` (moods.dfy) holds the `MOOD_PLAYLISTS` table, the normalisation
  `(mood or "").lower().strip()`, the lookup and `random.choice`.
- `Resolver` (resolver.dfy) models `random.shuffle` as an in-place shuffle of
  an array. It also models the loop that keeps the first record of each key
  using a seen-set, the `[:limit]` slice, and `get_playlist_by_mood` itself.

Randomness is an input to the model:
- `pick` is the draw behind `random.choice`. It is reduced below the length of
  the list, so every candidate can be chosen.
- `rng` is the stream of draws behind `random.shuffle`. Swap k uses draw k,
  reduced below the number of positions still in play, as in CPython's
  Fisher–Yates loop.

Every property holds for every `pick` and `rng`. The catalog service is the
parameter `catalog: string -> Listing`.

Three points where the code's behaviour is easy to misread:
- The 150 cap counts raw page entries before normalisation, not tracks.
- The cap is checked only after a follow-up page has been appended. So the
  first page is never checked, and the last page read can overshoot the cap
  (`Fetch.FirstPageNotCapped`, `Fetch.CapOvershootsByOnePage`).
- `limit` is any integer, sliced as Python slices. A negative limit drops that
  many records from the end instead of bounding the length.

## Model

| member | source | states |
|---|---|---|
| `Catalog.TrackToDict` | Backend/spotify_api.py:82-98 | a missing or empty raw track, and only such a track, gives the empty record |
| `Catalog.Key` | Backend/spotify_api.py:144 | the key is the id when the id is non-empty, else the web link when that is non-empty, else there is no key; a key is never "" |
| `Catalog.ArtistNames` | Backend/spotify_api.py:93 | there is at most one name per artist entry; the list is empty exactly when every entry is null or empty |
| `Catalog.MissingTrackNotIdentifiable` | Backend/spotify_api.py:84-85 | a page entry without a track payload normalises to `{}`, which has no key |
| `Catalog.CoverImageChoice` | Backend/spotify_api.py:87-88 | the cover is the url of image 1 when there are two or more images, of image 0 when there is one, and null when there are none |
| `Catalog.TrackFieldDefaults` | Backend/spotify_api.py:91-94 | a missing id, title or web link becomes ""; a null id stays null; the record is identifiable exactly when the raw id or the raw web link is a non-empty string |
| `Catalog.ArtistNamesOne` | Backend/spotify_api.py:93 | a single entry contributes `a.get("name", "")` when it is non-empty and nothing otherwise; with the append law this fixes every name list |
| `Catalog.ArtistNamesAppend` | Backend/spotify_api.py:93 | the names of a concatenation of artist lists are the two name lists in order, so list order is kept |
| `Catalog.JoinAppend` | Backend/spotify_api.py:93 | joining one more name appends ", " and the name (just the name for the first one) |
| `Catalog.ArtistField` | Backend/spotify_api.py:93 | the artist field is the names of the non-empty entries joined with ", "; it is "" when there are none, and the bare name when there is one |
| `Fetch.PagesRead` | Backend/spotify_api.py:105-109 | reading stops at the last page, or at the first follow-up page after which the count is at least the cap; no earlier follow-up page reached the cap |
| `Fetch.KeepIdentifiable` | Backend/spotify_api.py:111-118 | every kept record has a key and is the normalisation of some entry; no more records than entries |
| `Fetch.FetchTracks` | Backend/spotify_api.py:100-118 | the returned records are the identifiable normalised entries of exactly the pages `PagesRead` selects, in order; each has a key |
| `Fetch.ItemsAfterNext` | Backend/spotify_api.py:107 | reading one more follow-up page appends its entries |
| `Fetch.ItemsAfterGrows` | Backend/spotify_api.py:105-107 | the entries after fewer pages are a prefix of the entries after more pages |
| `Fetch.FetchedIsPrefix` | Backend/spotify_api.py:102-109 | the fetched entries start with the whole first page and are a prefix of all the listing's entries |
| `Fetch.UncappedFetchReadsAll` | Backend/spotify_api.py:105-109 | when the listing has fewer entries than the cap, every page is read |
| `Fetch.FirstPageNotCapped` | Backend/spotify_api.py:102-109 | a first page that alone reaches the cap is still followed by one follow-up page, if there is one |
| `Fetch.CapOvershootsByOnePage` | Backend/spotify_api.py:105-109 | before the last page read, the count was below the cap, so the overshoot is less than one page |
| `Fetch.KeepIdentifiableAppend` | Backend/spotify_api.py:112-116 | filtering works entry by entry: the records of two runs of entries concatenate in order |
| `Fetch.KeepIdentifiableComplete` | Backend/spotify_api.py:113-116 | every entry whose normalised record has a key is among the fetched records |
| `Resolver.KeepIdentifiableKeys` | Backend/spotify_api.py:111-118 | the fetched records carry exactly the keys of the entries whose normalised record has a key |
| `Fetch.EntryWithoutTrackDropped` | Backend/spotify_api.py:113-116 | an entry with no track payload contributes nothing, wherever it stands |
| `Moods.Lower` | Backend/spotify_api.py:132 | each ASCII upper-case letter becomes its lower-case letter and every other character stays; so the length and the whitespace positions are kept and no upper-case letter is left |
| `Moods.LeadingSpaces` | Backend/spotify_api.py:132 | counts exactly the leading whitespace that `strip` removes |
| `Moods.TrailingSpaces` | Backend/spotify_api.py:132 | counts exactly the trailing whitespace that `strip` removes |
| `Moods.Strip` | Backend/spotify_api.py:132 | the result is the slice of the input left after removing exactly the leading and the trailing whitespace, so it neither starts nor ends with whitespace |
| `Moods.StripInfix` | Backend/spotify_api.py:132 | the stripped text is one contiguous run of the input |
| `Moods.NormalizeMood` | Backend/spotify_api.py:132 | the normalised mood has no upper-case letter and no whitespace at either end |
| `Moods.LowerOfLower` | Backend/spotify_api.py:132 | lower-casing text that has no upper-case letter changes nothing |
| `Moods.StripOfStripped` | Backend/spotify_api.py:132 | stripping text that has no whitespace at its ends changes nothing |
| `Moods.NormalizeIdempotent` | Backend/spotify_api.py:132 | normalising an already normalised mood gives it back |
| `Moods.CaseAndPaddingIgnored` | Backend/spotify_api.py:132-135 | a table label written in any letter case and padded with whitespace normalises to the label and finds its list |
| `Moods.LowerAppend` | Backend/spotify_api.py:132 | lower-casing works character by character, so it distributes over concatenation |
| `Moods.StripPadded` | Backend/spotify_api.py:132 | stripping whitespace padding from text with no whitespace at its ends gives the text back |
| `Moods.PlaylistsFor` | Backend/spotify_api.py:133-135 | the lookup succeeds exactly when the normalised mood is a key; then it gives that key's non-empty list |
| `Moods.ChoosePlaylist` | Backend/spotify_api.py:137 | the chosen playlist id is an element of the mood's own list |
| `Moods.ChoiceCoversCandidates` | Backend/spotify_api.py:137 | every candidate of the list is chosen for some draw |
| `Moods.TableWellFormed` | Backend/spotify_api.py:29-80 | every label is lower-case letters and spaces with a letter at each end; every candidate list is non-empty |
| `Moods.EveryMoodReachable` | Backend/spotify_api.py:132-133 | requesting a label exactly as written in the table finds its list |
| `Moods.SharedPlaylistId` | Backend/spotify_api.py:63-70 | one id is a candidate of both "lonely" and "hopeful", so a chosen id is not exclusive to its mood |
| `Resolver.Shuffle` | Backend/spotify_api.py:139 | the array afterwards is the shuffle of its old contents under the draws |
| `Resolver.ShuffleDownPermutes` | Backend/spotify_api.py:139 | for every draw sequence the shuffle is a permutation of the pool (same length, same multiset) |
| `Resolver.DedupKeys` | Backend/spotify_api.py:141-147 | the de-duplicated records carry exactly the keys of the pool |
| `Resolver.DedupDistinct` | Backend/spotify_api.py:141-147 | no two de-duplicated records share a key, and each has one |
| `Resolver.DedupSize` | Backend/spotify_api.py:141-147 | there are as many de-duplicated records as distinct keys in the pool |
| `Resolver.DedupIsFirstsUpTo` | Backend/spotify_api.py:141-147 | on every prefix of the pool, the seen-set loop keeps exactly the first occurrence of each key, in pool order |
| `Resolver.FirstsUpToMembers` | Backend/spotify_api.py:141-147 | a record is kept exactly when it stands at the first position of its key |
| `Resolver.DedupIsFirstOccurrences` | Backend/spotify_api.py:141-147 | the seen-set de-duplication equals the first-occurrence filter of the pool |
| `Resolver.PermutationKeepsKeys` | Backend/spotify_api.py:139-147 | a permutation of the pool has the same set of keys, so shuffling does not change how many records survive |
| `Resolver.TakePrefix` | Backend/spotify_api.py:149 | `[:limit]` gives a prefix; with limit >= 0 it has at most `limit` records and is the whole list when it has fewer; with limit < 0 it drops `-limit` records from the end |
| `Resolver.KeepFirstOfEachKey` | Backend/spotify_api.py:141-147 | the loop's result is the seen-set de-duplication of the shuffled pool, and its keys are distinct |
| `Resolver.ResolvedTracks` | Backend/spotify_api.py:139-149 | for every draw sequence, the result has distinct keys and at most as many records as the pool has distinct keys; with limit >= 0 it has exactly the smaller of the two |
| `Resolver.GetPlaylistByMood` | Backend/spotify_api.py:120-149 | unknown mood gives []; otherwise the result is the limit-prefix of the first occurrences in the shuffled identifiable records of the chosen playlist, which is one of the mood's own ids; keys are distinct; with limit >= 0 its length is exactly the smaller of `limit` and the number of distinct keys among the fetched entries |

## Left out

- Backend/app.py is not part of this model. It holds the HTTP routes, the
  MySQL schema and connection, password hashing and JWT tokens: plumbing
  around the resolver.
- Backend/test_spotify.py is not part of this model. It is a live connection
  script.
- The spotipy client, the OAuth setup and `load_dotenv` (Backend/spotify_api.py:11-23)
  are left out. The `playlist_tracks`/`next` calls are the abstract `Listing`.
  The requested page size of 100 is the catalog's concern, so pages of any
  size are allowed.
- Exceptions from the catalog (network, authentication, rate limits) and
  their propagation are left out. The model's catalog always answers.
- Records that would make `_track_to_dict` raise are excluded by the types:
  - a null album;
  - a null artist list;
  - an artist whose name is null;
  - an image without a "url" key.
- A track payload that is an empty dictionary is folded into "no track". Both
  are falsy, and both give `{}`.
- The uniformity of `random.choice` and `random.shuffle` is not modelled. The
  draws are inputs, and properties hold for all of them.
- Lower (Moods.Lower): only ASCII letters are lower-cased. Python's full
  Unicode lower-casing is not modelled. The only non-ASCII character whose
  lower-case form is all ASCII is the Kelvin sign, which becomes 'k', and no label
  contains 'k'. So the lookup outcome is the same.
- The order of keys in the returned dictionaries and the JSON encoding are not
  modelled.
