/**
 The mood resolver `get_playlist_by_mood`: normalise the mood and look it up,
 choose one of its playlists, fetch that playlist's records, shuffle them in
 place, keep the first record of each identifiable key, and cut the result to
 the limit.

 Randomness is an input. `pick` is the draw behind `random.choice`, and `rng`
 is the stream of draws behind `random.shuffle`: the k-th swap of the shuffle
 takes draw k, reduced below the number of positions still in play. Every
 property below holds for every choice of `pick` and `rng`.
 */
module Resolver {
  import opened Catalog
  import opened Fetch
  import opened Moods

  // ---------------------------------------------------------------------------
  // Shuffling in place

  function Swap<T>(s: seq<T>, i: nat, j: nat): (r: seq<T>)
    requires i < |s| && j < |s|
    ensures |r| == |s|
  {
    s[i := s[j]][j := s[i]]
  }

  /** The position `randbelow(bound)` returns for the k-th draw. */
  function Draw(rng: nat -> nat, k: nat, bound: nat): (j: nat)
    requires bound > 0
    ensures j < bound
  {
    rng(k) % bound
  }

  /**
   The shuffle of `s` once positions `m`.. are settled: position m - 1 is
   exchanged with a position below m that the next draw selects, and so on
   down to position 1.
   */
  function ShuffleDown<T>(s: seq<T>, rng: nat -> nat, m: nat): seq<T>
    requires m <= |s|
    decreases m
  {
    if m <= 1 then s
    else ShuffleDown(Swap(s, m - 1, Draw(rng, |s| - m, m)), rng, m - 1)
  }

  /** `random.shuffle` of `s` under the draws `rng`. */
  function Shuffled<T>(s: seq<T>, rng: nat -> nat): seq<T>
  {
    ShuffleDown(s, rng, |s|)
  }

  /** Shuffles `a` in place. */
  method Shuffle<T>(a: array<T>, rng: nat -> nat)
    modifies a
    ensures a[..] == Shuffled(old(a[..]), rng)
  {
    var m: nat := a.Length;
    while m > 1
      invariant m <= a.Length
      invariant ShuffleDown(a[..], rng, m) == Shuffled(old(a[..]), rng)
    {
      var j := Draw(rng, a.Length - m, m);
      SwapInPlace(a, m - 1, j);
      m := m - 1;
    }
  }

  /** `x[i], x[j] = x[j], x[i]`. */
  method SwapInPlace<T>(a: array<T>, i: nat, j: nat)
    requires i < a.Length && j < a.Length
    modifies a
    ensures a[..] == Swap(old(a[..]), i, j)
  {
    a[i], a[j] := a[j], a[i];
  }

  lemma SwapPermutes<T>(s: seq<T>, i: nat, j: nat)
    requires i < |s| && j < |s|
    ensures multiset(Swap(s, i, j)) == multiset(s)
  {
    var s1 := s[i := s[j]];
    assert multiset(s1) == multiset(s) - multiset{s[i]} + multiset{s[j]};
    assert multiset(s1[j := s[i]]) == multiset(s1) - multiset{s1[j]} + multiset{s[i]};
  }

  /** Whatever the draws, the shuffle is a permutation of its input. */
  lemma {:induction false} ShuffleDownPermutes<T>(s: seq<T>, rng: nat -> nat, m: nat)
    requires m <= |s|
    ensures |ShuffleDown(s, rng, m)| == |s|
    ensures multiset(ShuffleDown(s, rng, m)) == multiset(s)
    decreases m
  {
    if m > 1 {
      var j := Draw(rng, |s| - m, m);
      var swapped := Swap(s, m - 1, j);
      SwapPermutes(s, m - 1, j);
      ShuffleDownPermutes(swapped, rng, m - 1);
      assert ShuffleDown(s, rng, m) == ShuffleDown(swapped, rng, m - 1);
    }
  }

  // ---------------------------------------------------------------------------
  // De-duplication by identifiable key

  /** The identifiable keys occurring in `s`. */
  function KeySet(s: seq<TrackRecord>): set<string>
  {
    set t | t in s && Key(t).Some? :: Key(t).value
  }

  /** The de-duplicating loop's result: a record is appended when it has a key not seen before. */
  function Dedup(pool: seq<TrackRecord>): seq<TrackRecord>
  {
    if pool == [] then []
    else
      var prior := Dedup(pool[..|pool| - 1]);
      var t := pool[|pool| - 1];
      if Key(t).Some? && Key(t).value !in KeySet(prior) then prior + [t] else prior
  }

  /** The record at `i` has a key that no earlier record of `s` has. */
  predicate IsFirstOccurrence(s: seq<TrackRecord>, i: nat)
    requires i < |s|
  {
    Key(s[i]).Some? && forall j :: 0 <= j < i ==> Key(s[j]) != Key(s[i])
  }

  /** The records of `s[..n]` that are first occurrences of their key, in their order in `s`. */
  function FirstsUpTo(s: seq<TrackRecord>, n: nat): seq<TrackRecord>
    requires n <= |s|
  {
    if n == 0 then []
    else FirstsUpTo(s, n - 1) + (if IsFirstOccurrence(s, n - 1) then [s[n - 1]] else [])
  }

  /** Reference definition: the first occurrence of every key, in order. */
  function FirstOccurrences(s: seq<TrackRecord>): seq<TrackRecord>
  {
    FirstsUpTo(s, |s|)
  }

  /** No two records share a key, and every record has one. */
  predicate DistinctKeys(s: seq<TrackRecord>)
  {
    (forall i :: 0 <= i < |s| ==> Key(s[i]).Some?) &&
    (forall i, j :: 0 <= i < j < |s| ==> Key(s[i]) != Key(s[j]))
  }

  lemma KeySetAppend(s: seq<TrackRecord>, t: TrackRecord)
    ensures KeySet(s + [t]) == KeySet(s) + (if Key(t).Some? then {Key(t).value} else {})
  {
    assert forall u :: u in s + [t] <==> u in s || u == t;
  }

  lemma KeySetMember(s: seq<TrackRecord>, k: string)
    ensures k in KeySet(s) <==> exists j :: 0 <= j < |s| && Key(s[j]) == Some(k)
  {
    if k in KeySet(s) {
      var t :| t in s && Key(t).Some? && Key(t).value == k;
      var j :| 0 <= j < |s| && s[j] == t;
      assert Key(s[j]) == Some(k);
    }
  }

  /** The keys of the entries whose normalised record is identifiable. */
  function EntryKeys(items: seq<RawItem>): set<string>
  {
    set it | it in items && Identifiable(TrackToDict(TrackOf(it))) :: Key(TrackToDict(TrackOf(it))).value
  }

  /** The fetched records carry exactly the keys of the identifiable entries, no more and no fewer. */
  lemma {:induction false} KeepIdentifiableKeys(items: seq<RawItem>)
    ensures KeySet(KeepIdentifiable(items)) == EntryKeys(items)
    decreases |items|
  {
    if items != [] {
      var prefix := items[..|items| - 1];
      var last := items[|items| - 1];
      var td := TrackToDict(TrackOf(last));
      KeepIdentifiableKeys(prefix);
      KeySetAppend(KeepIdentifiable(prefix), td);
      if !Identifiable(td) {
        assert KeepIdentifiable(prefix) + [] == KeepIdentifiable(prefix);
      }
      assert items == prefix + [last];
      assert forall it :: it in items <==> it in prefix || it == last;
    }
  }

  /** The de-duplicated records carry exactly the keys of the pool. */
  lemma {:induction false} DedupKeys(s: seq<TrackRecord>)
    ensures KeySet(Dedup(s)) == KeySet(s)
    decreases |s|
  {
    if s != [] {
      var init := s[..|s| - 1];
      var t := s[|s| - 1];
      assert s == init + [t];
      DedupKeys(init);
      KeySetAppend(init, t);
      KeySetAppend(Dedup(init), t);
    }
  }

  /** No two de-duplicated records share a key. */
  lemma {:induction false} DedupDistinct(s: seq<TrackRecord>)
    ensures DistinctKeys(Dedup(s))
    decreases |s|
  {
    if s != [] {
      var prior := Dedup(s[..|s| - 1]);
      var t := s[|s| - 1];
      DedupDistinct(s[..|s| - 1]);
      if Key(t).Some? && Key(t).value !in KeySet(prior) {
        forall i | 0 <= i < |prior|
          ensures Key(prior[i]) != Key(t)
        {
          KeySetMember(prior, Key(prior[i]).value);
        }
      }
    }
  }

  /** The de-duplicated pool has one record per distinct key of the pool. */
  lemma {:induction false} DedupSize(s: seq<TrackRecord>)
    ensures |Dedup(s)| == |KeySet(s)|
    decreases |s|
  {
    if s != [] {
      var init := s[..|s| - 1];
      var t := s[|s| - 1];
      assert s == init + [t];
      DedupSize(init);
      DedupKeys(init);
      KeySetAppend(init, t);
      var prior := Dedup(init);
      assert Dedup(s) == if Key(t).Some? && Key(t).value !in KeySet(prior) then prior + [t] else prior;
      if Key(t).Some? && Key(t).value !in KeySet(init) {
        assert KeySet(s) == KeySet(init) + {Key(t).value};
        assert |KeySet(s)| == |KeySet(init)| + 1;
      } else {
        assert KeySet(s) == KeySet(init);
      }
    }
  }

  /** The seen-set loop keeps exactly the first occurrence of each key, in pool order. */
  lemma {:induction false} DedupIsFirstsUpTo(s: seq<TrackRecord>, n: nat)
    requires n <= |s|
    ensures Dedup(s[..n]) == FirstsUpTo(s, n)
    decreases n
  {
    if n > 0 {
      assert s[..n][..n - 1] == s[..n - 1];
      DedupIsFirstsUpTo(s, n - 1);
      var prior := Dedup(s[..n - 1]);
      DedupKeys(s[..n - 1]);
      var t := s[n - 1];
      if Key(t).Some? {
        KeySetMember(s[..n - 1], Key(t).value);
        assert Key(t).value in KeySet(prior) <==> !IsFirstOccurrence(s, n - 1);
      }
    }
  }

  /** A record is kept exactly when it stands at the first position of its key. */
  lemma {:induction false} FirstsUpToMembers(s: seq<TrackRecord>, n: nat, t: TrackRecord)
    requires n <= |s|
    ensures t in FirstsUpTo(s, n) <==> exists i :: 0 <= i < n && IsFirstOccurrence(s, i) && s[i] == t
    decreases n
  {
    if n > 0 {
      FirstsUpToMembers(s, n - 1, t);
    }
  }

  lemma DedupIsFirstOccurrences(s: seq<TrackRecord>)
    ensures Dedup(s) == FirstOccurrences(s)
  {
    DedupIsFirstsUpTo(s, |s|);
    assert s[..|s|] == s;
  }

  /** A permutation of the pool has the same keys, so the shuffle cannot change how many records survive. */
  lemma PermutationKeepsKeys(s: seq<TrackRecord>, p: seq<TrackRecord>)
    requires multiset(p) == multiset(s)
    ensures KeySet(p) == KeySet(s)
  {
    assert forall t :: t in p <==> t in s by {
      forall t ensures t in p <==> t in s {
        assert t in p <==> t in multiset(p);
        assert t in s <==> t in multiset(s);
      }
    }
  }

  // ---------------------------------------------------------------------------
  // Truncation

  /** Python's `s[:limit]`: the first `limit` records, or all but the last `-limit` when `limit` is negative. */
  function TakePrefix<T>(s: seq<T>, limit: int): (r: seq<T>)
    ensures r <= s
    ensures 0 <= limit ==> |r| <= limit && (|r| < limit ==> r == s)
    ensures limit < 0 ==> |r| == if |s| + limit < 0 then 0 else |s| + limit
  {
    if 0 <= limit then (if limit < |s| then s[..limit] else s)
    else if |s| + limit < 0 then []
    else s[..|s| + limit]
  }

  // ---------------------------------------------------------------------------
  // The resolver

  /** The de-duplicating loop: keep a record when its key is truthy and not yet seen. */
  method KeepFirstOfEachKey(pool: array<TrackRecord>) returns (unique: seq<TrackRecord>)
    ensures unique == Dedup(pool[..])
    ensures DistinctKeys(unique)
  {
    var seen: set<string> := {};
    unique := [];
    for i := 0 to pool.Length
      invariant unique == Dedup(pool[..i])
      invariant seen == KeySet(unique)
    {
      assert pool[..i + 1][..i] == pool[..i];
      var t := pool[i];
      var key := Key(t);
      KeySetAppend(unique, t);
      if key.Some? && key.value !in seen {
        seen := seen + {key.value};
        unique := unique + [t];
      }
    }
    assert pool[..pool.Length] == pool[..];
    DedupDistinct(pool[..]);
  }

  /**
   What the resolver returns for a fetched pool, whatever the shuffle's draws:
   distinct keys, at most `limit` records, and exactly as many as the limit and
   the pool's distinct keys allow.
   */
  lemma {:induction false} ResolvedTracks(pool: seq<TrackRecord>, rng: nat -> nat, limit: int)
    ensures Dedup(Shuffled(pool, rng)) == FirstOccurrences(Shuffled(pool, rng))
    ensures DistinctKeys(TakePrefix(FirstOccurrences(Shuffled(pool, rng)), limit))
    ensures |TakePrefix(FirstOccurrences(Shuffled(pool, rng)), limit)| <= |KeySet(pool)|
    ensures 0 <= limit ==>
              |TakePrefix(FirstOccurrences(Shuffled(pool, rng)), limit)| ==
                if limit < |KeySet(pool)| then limit else |KeySet(pool)|
  {
    var shuffled := Shuffled(pool, rng);
    DedupIsFirstOccurrences(shuffled);
    DedupDistinct(shuffled);
    DedupSize(shuffled);
    ShuffleDownPermutes(pool, rng, |pool|);
    PermutationKeepsKeys(pool, shuffled);
    var unique := Dedup(shuffled);
    var r := TakePrefix(unique, limit);
    assert r <= unique;
    assert forall i :: 0 <= i < |r| ==> r[i] == unique[i];
  }

  /**
   `get_playlist_by_mood`. A mood outside the table gives no records. Otherwise
   the result is the limit-prefix of the first occurrences of each key in the
   shuffled records of the chosen playlist; with a non-negative limit it holds
   as many records as the limit and the number of distinct keys allow.
   */
  method GetPlaylistByMood(mood: Option<string>, limit: int, pick: nat, rng: nat -> nat,
                           catalog: string -> Listing)
    returns (tracks: seq<TrackRecord>)
    ensures PlaylistsFor(mood).None? ==> tracks == []
    ensures PlaylistsFor(mood).Some? ==>
              var items := FetchedItems(catalog(ChoosePlaylist(PlaylistsFor(mood).value, pick)), MaxPerPlaylist);
              && tracks == TakePrefix(FirstOccurrences(Shuffled(KeepIdentifiable(items), rng)), limit)
              && |tracks| <= |EntryKeys(items)|
              && (0 <= limit ==> |tracks| == if limit < |EntryKeys(items)| then limit else |EntryKeys(items)|)
    ensures DistinctKeys(tracks)
    ensures 0 <= limit ==> |tracks| <= limit
  {
    var ids := PlaylistsFor(mood);
    if ids.None? {
      return [];
    }
    var chosen := ChoosePlaylist(ids.value, pick);
    var fetched := FetchTracks(catalog(chosen), MaxPerPlaylist);
    var pool := new TrackRecord[|fetched|](i requires 0 <= i < |fetched| => fetched[i]);
    assert pool[..] == fetched;
    Shuffle(pool, rng);
    var unique := KeepFirstOfEachKey(pool);
    tracks := TakePrefix(unique, limit);
    ResolvedTracks(fetched, rng, limit);
    KeepIdentifiableKeys(FetchedItems(catalog(chosen), MaxPerPlaylist));
  }
}
