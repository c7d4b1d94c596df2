/**
 Raw records as the music catalog returns them, and the normaliser that
 flattens one raw track into the track record the mobile client receives.

 A raw catalog record is a JSON dictionary read with `get`. Where a key may be
 missing, null or set, and the normaliser treats the three differently, the
 field is a `Field`; where missing and null lead to the same outcome, it is an
 `Option`; where a null would make the normaliser raise, the type leaves the
 null out.
 */
module Catalog {

  datatype Option<+T> = None | Some(value: T)

  /** A dictionary entry: its key is missing, or present with null, or present with a value. */
  datatype Field<+T> = Absent | Null | Given(value: T)

  /** One artist entry that is a non-empty dictionary; `name` is None when it has no "name" key. */
  datatype RawArtist = RawArtist(name: Option<string>)

  /** One album image; `url` is None when its "url" is null. */
  datatype RawImage = RawImage(url: Option<string>)

  /**
   A non-empty raw track dictionary.
   - `artists`: the "artists" list (a missing key reads as []); None stands for
     an entry that is null or an empty dictionary.
   - `spotifyUrl`: the "spotify" entry of "external_urls"; a missing, null or
     empty "external_urls" reads as a missing entry.
   - `uri`, `previewUrl`: None when the key is missing or null.
   - `images`: the album's "images" list; a missing album, a missing images key
     and a null images value all read as [].
   */
  datatype RawTrack = RawTrack(
    id: Field<string>,
    name: Field<string>,
    artists: seq<Option<RawArtist>>,
    spotifyUrl: Field<string>,
    uri: Option<string>,
    images: seq<RawImage>,
    previewUrl: Option<string>)

  /**
   One entry of a playlist page. `NullItem` is an entry that is null or an
   empty dictionary; `Item(None)` is one whose "track" is missing, null or an
   empty dictionary.
   */
  datatype RawItem = NullItem | Item(track: Option<RawTrack>)

  /** The flat record handed to the client; `EmptyRecord` is the empty dictionary. */
  datatype TrackRecord =
    | EmptyRecord
    | Track(id: Option<string>, title: Option<string>, artist: string,
            trackUrl: Option<string>, uri: Option<string>,
            imageUrl: Option<string>, previewUrl: Option<string>)

  /** The track payload of a page entry: `(item or {}).get("track")`. */
  function TrackOf(item: RawItem): Option<RawTrack>
  {
    match item
    case NullItem => None
    case Item(track) => track
  }

  /** `d.get(key, default)` on a string entry; None is a null result. */
  function GetOr(f: Field<string>, default: string): Option<string>
  {
    match f
    case Absent => Some(default)
    case Null => None
    case Given(s) => Some(s)
  }

  /** Python truthiness of an optional string: present and non-empty. */
  predicate Truthy(s: Option<string>)
  {
    s.Some? && s.value != ""
  }

  /** The cover image: the second image if there are two or more, else the first, else none. */
  function CoverImage(images: seq<RawImage>): Option<string>
  {
    if |images| > 1 then images[1].url
    else if |images| == 1 then images[0].url
    else None
  }

  /** The name of one non-empty artist entry: `a.get("name", "")`. */
  function ArtistName(a: RawArtist): string
  {
    match a.name
    case None => ""
    case Some(n) => n
  }

  /** Names of the non-empty artist entries, in list order. */
  function ArtistNames(artists: seq<Option<RawArtist>>): (names: seq<string>)
    ensures |names| <= |artists|
    ensures names == [] <==> forall k :: 0 <= k < |artists| ==> artists[k].None?
  {
    if artists == [] then []
    else
      assert forall k :: 1 <= k < |artists| ==> artists[k] == artists[1..][k - 1];
      (if artists[0].Some? then [ArtistName(artists[0].value)] else []) + ArtistNames(artists[1..])
  }

  /** `sep.join(parts)`. */
  function Join(sep: string, parts: seq<string>): string
  {
    if parts == [] then ""
    else if |parts| == 1 then parts[0]
    else parts[0] + sep + Join(sep, parts[1..])
  }

  /** `_track_to_dict`: a missing or empty track becomes the empty record. */
  function TrackToDict(track: Option<RawTrack>): (r: TrackRecord)
    ensures r.EmptyRecord? <==> track.None?
  {
    match track
    case None => EmptyRecord
    case Some(t) =>
      Track(
        id := GetOr(t.id, ""),
        title := GetOr(t.name, ""),
        artist := Join(", ", ArtistNames(t.artists)),
        trackUrl := GetOr(t.spotifyUrl, ""),
        uri := t.uri,
        imageUrl := CoverImage(t.images),
        previewUrl := t.previewUrl)
  }

  /**
   The identifiable key `t.get("id") or t.get("track_url")`, kept only when it
   is truthy: the id when non-empty, else the web link when non-empty.
   */
  function Key(t: TrackRecord): (k: Option<string>)
    ensures k.Some? ==> k.value != "" && t.Track?
    ensures k.Some? ==> t.id == k || (!Truthy(t.id) && t.trackUrl == k)
    ensures k.None? <==> (t.EmptyRecord? || (!Truthy(t.id) && !Truthy(t.trackUrl)))
  {
    match t
    case EmptyRecord => None
    case Track(id, _, _, url, _, _, _) =>
      if Truthy(id) then id else if Truthy(url) then url else None
  }

  /** A record is kept by the fetch, and can be de-duplicated, when it has a key. */
  predicate Identifiable(t: TrackRecord)
  {
    Key(t).Some?
  }

  // ---------------------------------------------------------------------------
  // Properties of the normaliser

  /** A page entry without a track payload normalises to the empty record, which has no key. */
  lemma MissingTrackNotIdentifiable(item: RawItem)
    requires TrackOf(item).None?
    ensures TrackToDict(TrackOf(item)) == EmptyRecord
    ensures !Identifiable(TrackToDict(TrackOf(item)))
  {
  }

  /** Image selection: the image at index 1 with two or more images, the only one with one, none with none. */
  lemma CoverImageChoice(t: RawTrack)
    ensures |t.images| >= 2 ==> TrackToDict(Some(t)).imageUrl == t.images[1].url
    ensures |t.images| == 1 ==> TrackToDict(Some(t)).imageUrl == t.images[0].url
    ensures t.images == [] ==> TrackToDict(Some(t)).imageUrl == None
  {
  }

  /** The id and the web link default to "" when their key is missing and pass a null through. */
  lemma TrackFieldDefaults(t: RawTrack)
    ensures t.id.Absent? ==> TrackToDict(Some(t)).id == Some("")
    ensures t.id.Null? ==> TrackToDict(Some(t)).id == None
    ensures t.spotifyUrl.Absent? ==> TrackToDict(Some(t)).trackUrl == Some("")
    ensures t.name.Absent? ==> TrackToDict(Some(t)).title == Some("")
    ensures Identifiable(TrackToDict(Some(t))) <==>
              (t.id.Given? && t.id.value != "") || (t.spotifyUrl.Given? && t.spotifyUrl.value != "")
  {
  }

  /** One entry contributes its name when it is non-empty and nothing otherwise. */
  lemma ArtistNamesOne(a: Option<RawArtist>)
    ensures ArtistNames([a]) == if a.Some? then [ArtistName(a.value)] else []
  {
    assert [a][1..] == [];
  }

  /** Skipping an entry and keeping entries in order: the names of a concatenation concatenate. */
  lemma {:induction false} ArtistNamesAppend(a: seq<Option<RawArtist>>, b: seq<Option<RawArtist>>)
    ensures ArtistNames(a + b) == ArtistNames(a) + ArtistNames(b)
  {
    if a != [] {
      assert (a + b)[0] == a[0] && (a + b)[1..] == a[1..] + b;
      ArtistNamesAppend(a[1..], b);
    } else {
      assert a + b == b;
    }
  }

  /** Joining one more part appends the separator and the part: the names appear in list order. */
  lemma {:induction false} JoinAppend(sep: string, parts: seq<string>, last: string)
    ensures Join(sep, parts + [last]) == if parts == [] then last else Join(sep, parts) + sep + last
  {
    if |parts| > 1 {
      assert (parts + [last])[1..] == parts[1..] + [last];
      JoinAppend(sep, parts[1..], last);
    } else if |parts| == 1 {
      assert (parts + [last])[1..] == [last];
    }
  }

  /** The artist field is the comma-joined names of the non-empty entries; no such entries give "". */
  lemma {:induction false} ArtistField(t: RawTrack)
    ensures TrackToDict(Some(t)).artist == Join(", ", ArtistNames(t.artists))
    ensures (forall k :: 0 <= k < |t.artists| ==> t.artists[k].None?) ==> TrackToDict(Some(t)).artist == ""
    ensures |ArtistNames(t.artists)| == 1 ==> TrackToDict(Some(t)).artist == ArtistNames(t.artists)[0]
  {
  }
}
