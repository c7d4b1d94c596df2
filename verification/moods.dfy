/**
 The static table from mood labels to curated playlist ids, the normalisation
 a requested mood goes through before the lookup, and the choice of one
 playlist among a mood's candidates.
 */
module Moods {
  import opened Catalog

  /** `MOOD_PLAYLISTS`: every key is a lower-case label, every list non-empty. */
  const MoodPlaylists: map<string, seq<string>> := map[
    "sad" := ["7GyDlxXF2EnTImgYJU8JIx", "2ZnAWYy4AOs8tpRUCGF6Py"],
    "energetic" := ["09C8ZGUepJGErYZcI7s2Ns", "6i71oduwXihfSJBTrLoYOR"],
    "in love" := ["6oNsYDhN95gkENsdFcAwTh", "60OmycS2YaYLN63oiGPr2p"],
    "happy" := ["4Fh0313D3PitYzICKHhZ7r", "7ue0JFwZLLUezhvF8HcDyq"],
    "relaxed" := ["4rFthP2CHmFD6Cszc9mT9A", "44mWcJNKGzFQNICUBnrYLL"],
    "depressed" := ["7I4DQjGPwh8YTc6iW1GN7f", "2t4BAQJ4IWurz4wznvTxw1"],
    "focused" := ["14KtkIpsvzDSCXR24EqHCL", "4Qxy1JjPBbohRQIlMj6xBA"],
    "chill" := ["6IKQrtMc4c00YzONcUt7QH", "4pJNEInSLpsE696XUU00l8"],
    "lonely" := ["79bxZXB7zD8KWit9ud6lKk", "1M1ogQ10BKAdnW1SsMfsEc"],
    "hopeful" := ["77qvKHsd1c9YGbGcnZVNzE", "1M1ogQ10BKAdnW1SsMfsEc"],
    "confident" := ["1krayF0y1dJhfLaGm0jHww", "3RuTobXDwJWJArbuMpBVr8"],
    "nostalgic" := ["7GRnA1buU09xvdDoSJlyEw", "4GasCSnkoRMY373VFUbinP", "27qET95DJqZLtNHmHSpuAG"]
  ]

  /** The characters Python's `str.isspace` accepts, which `str.strip()` removes. */
  predicate IsSpace(c: char)
  {
    var n := c as int;
    n == 0x20 || 0x09 <= n <= 0x0D || 0x1C <= n <= 0x1F || n == 0x85 || n == 0xA0 ||
    n == 0x1680 || 0x2000 <= n <= 0x200A || n == 0x2028 || n == 0x2029 ||
    n == 0x202F || n == 0x205F || n == 0x3000
  }

  predicate IsUpper(c: char)
  {
    'A' <= c <= 'Z'
  }

  predicate IsLabelChar(c: char)
  {
    'a' <= c <= 'z' || c == ' '
  }

  /** The shape of the table's labels: lower-case letters and spaces, with a letter at each end. */
  predicate IsLabel(k: string)
  {
    |k| > 0 && k[0] != ' ' && k[|k| - 1] != ' ' && forall i :: 0 <= i < |k| ==> IsLabelChar(k[i])
  }

  function LowerChar(c: char): char
  {
    if IsUpper(c) then (c as int + 32) as char else c
  }

  /** `str.lower()` on the ASCII letters. */
  function Lower(s: string): (r: string)
    ensures |r| == |s|
    ensures forall i :: 0 <= i < |s| ==> r[i] == if IsUpper(s[i]) then (s[i] as int + 32) as char else s[i]
    ensures forall i :: 0 <= i < |r| ==> !IsUpper(r[i])
    ensures forall i :: 0 <= i < |r| ==> IsSpace(r[i]) == IsSpace(s[i])
  {
    if s == [] then [] else [LowerChar(s[0])] + Lower(s[1..])
  }

  /** The number of whitespace characters `s` starts with. */
  function LeadingSpaces(s: string): (n: nat)
    ensures n <= |s|
    ensures forall i :: 0 <= i < n ==> IsSpace(s[i])
    ensures n < |s| ==> !IsSpace(s[n])
  {
    if s == [] || !IsSpace(s[0]) then 0 else 1 + LeadingSpaces(s[1..])
  }

  /** The number of whitespace characters `s` ends with. */
  function TrailingSpaces(s: string): (n: nat)
    ensures n <= |s|
    ensures forall i :: |s| - n <= i < |s| ==> IsSpace(s[i])
    ensures n < |s| ==> !IsSpace(s[|s| - n - 1])
  {
    if s == [] || !IsSpace(s[|s| - 1]) then 0 else 1 + TrailingSpaces(s[..|s| - 1])
  }

  /** `str.strip()`: the longest infix with no whitespace at either end. */
  function Strip(s: string): (r: string)
    ensures r == [] || (!IsSpace(r[0]) && !IsSpace(r[|r| - 1]))
    ensures exists i, j :: 0 <= i <= j <= |s| && r == s[i..j] &&
              (forall k :: 0 <= k < i ==> IsSpace(s[k])) && (forall k :: j <= k < |s| ==> IsSpace(s[k]))
  {
    var i := LeadingSpaces(s);
    var rest := s[i..];
    var j := i + |rest| - TrailingSpaces(rest);
    assert forall k :: j <= k < |s| ==> s[k] == rest[k - i];
    s[i..j]
  }

  /** `(mood or "").lower().strip()`: a missing mood reads as "". */
  function NormalizeMood(mood: Option<string>): (key: string)
    ensures forall i :: 0 <= i < |key| ==> !IsUpper(key[i])
    ensures key == [] || (!IsSpace(key[0]) && !IsSpace(key[|key| - 1]))
  {
    var s := match mood case None => "" case Some(m) => m;
    var r := Strip(Lower(s));
    StripInfix(Lower(s));
    r
  }

  /** The mood's candidate playlists, or None for a mood not in the table. */
  function PlaylistsFor(mood: Option<string>): (ids: Option<seq<string>>)
    ensures ids.Some? <==> NormalizeMood(mood) in MoodPlaylists
    ensures ids.Some? ==> ids.value == MoodPlaylists[NormalizeMood(mood)] && |ids.value| > 0
  {
    TableWellFormed();
    var key := NormalizeMood(mood);
    if key in MoodPlaylists then Some(MoodPlaylists[key]) else None
  }

  /** `random.choice(ids)`, with the random draw `pick` given: the draw reduced below the list's length. */
  function ChoosePlaylist(ids: seq<string>, pick: nat): (chosen: string)
    requires |ids| > 0
    ensures chosen in ids
  {
    ids[pick % |ids|]
  }

  // ---------------------------------------------------------------------------
  // Properties of the table and the normalisation

  /** Every label is a non-empty run of lower-case letters and inner spaces; every candidate list is non-empty. */
  lemma TableWellFormed()
    ensures forall k :: k in MoodPlaylists ==> |MoodPlaylists[k]| > 0
    ensures forall k :: k in MoodPlaylists ==> IsLabel(k)
  {
    TableLabels();
  }

  lemma TableLabels()
    ensures forall k :: k in MoodPlaylists ==> IsLabel(k)
  {
    TableKeys();
    LabelsOfFirstFour();
    LabelsOfMiddleFour();
    LabelsOfLastFour();
  }

  lemma TableKeys()
    ensures MoodPlaylists.Keys == {"sad", "energetic", "in love", "happy", "relaxed", "depressed",
                                   "focused", "chill", "lonely", "hopeful", "confident", "nostalgic"}
  {
  }

  // The label checks, four labels at a time to keep each proof small.

  lemma LabelsOfFirstFour()
    ensures IsLabel("sad") && IsLabel("energetic") && IsLabel("in love") && IsLabel("happy")
  {
  }

  lemma LabelsOfMiddleFour()
    ensures IsLabel("relaxed") && IsLabel("depressed") && IsLabel("focused") && IsLabel("chill")
  {
  }

  lemma LabelsOfLastFour()
    ensures IsLabel("lonely") && IsLabel("hopeful") && IsLabel("confident") && IsLabel("nostalgic")
  {
  }

  /** The characters `Strip` keeps form one contiguous run of its input. */
  lemma StripInfix(s: string)
    ensures exists i, j :: 0 <= i <= j <= |s| && Strip(s) == s[i..j]
  {
    var i := LeadingSpaces(s);
    var rest := s[i..];
    var j := i + |rest| - TrailingSpaces(rest);
    assert Strip(s) == s[i..j];
  }

  /** Lower-casing text with no upper-case letter changes nothing. */
  lemma {:induction false} LowerOfLower(s: string)
    requires forall i :: 0 <= i < |s| ==> !IsUpper(s[i])
    ensures Lower(s) == s
  {
    if s != [] {
      LowerOfLower(s[1..]);
    }
  }

  /** Stripping text with no whitespace at either end changes nothing. */
  lemma StripOfStripped(s: string)
    requires s == [] || (!IsSpace(s[0]) && !IsSpace(s[|s| - 1]))
    ensures Strip(s) == s
  {
    assert LeadingSpaces(s) == 0;
    assert s[0..] == s;
    assert TrailingSpaces(s) == 0;
  }

  /** Normalising a normalised mood gives it back. */
  lemma NormalizeIdempotent(mood: Option<string>)
    ensures NormalizeMood(Some(NormalizeMood(mood))) == NormalizeMood(mood)
  {
    var key := NormalizeMood(mood);
    LowerOfLower(key);
    StripOfStripped(key);
  }

  /** Each label in the table is reached by requesting it as written, so every mood is servable. */
  lemma EveryMoodReachable(m: string)
    requires m in MoodPlaylists
    ensures NormalizeMood(Some(m)) == m
    ensures PlaylistsFor(Some(m)) == Some(MoodPlaylists[m])
  {
    TableWellFormed();
    LowerOfLower(m);
    StripOfStripped(m);
  }

  /**
   The lookup ignores letter case and surrounding whitespace: a label written
   with any mix of upper- and lower-case letters, padded with whitespace on
   either side, finds the label's list.
   */
  lemma CaseAndPaddingIgnored(w1: string, v: string, w2: string, m: string)
    requires m in MoodPlaylists
    requires forall i :: 0 <= i < |w1| ==> IsSpace(w1[i])
    requires forall i :: 0 <= i < |w2| ==> IsSpace(w2[i])
    requires |v| == |m| && forall i :: 0 <= i < |v| ==> LowerChar(v[i]) == m[i]
    ensures NormalizeMood(Some(w1 + v + w2)) == m
    ensures PlaylistsFor(Some(w1 + v + w2)) == Some(MoodPlaylists[m])
  {
    TableWellFormed();
    assert !IsSpace(m[0]) && !IsSpace(m[|m| - 1]);
    LowerAppend(w1 + v, w2);
    LowerAppend(w1, v);
    LowerIs(v, m);
    StripPadded(Lower(w1), m, Lower(w2));
  }

  /** Lower-casing works character by character, so it distributes over concatenation. */
  lemma LowerAppend(a: string, b: string)
    ensures Lower(a + b) == Lower(a) + Lower(b)
  {
    assert forall i :: 0 <= i < |a| ==> (a + b)[i] == a[i];
    assert forall i :: |a| <= i < |a| + |b| ==> (a + b)[i] == b[i - |a|];
  }

  lemma LowerIs(v: string, m: string)
    requires |v| == |m| && forall i :: 0 <= i < |v| ==> LowerChar(v[i]) == m[i]
    ensures Lower(v) == m
  {
  }

  /** Stripping whitespace padding from text that has no whitespace at its ends gives the text back. */
  lemma StripPadded(l1: string, m: string, l2: string)
    requires forall i :: 0 <= i < |l1| ==> IsSpace(l1[i])
    requires forall i :: 0 <= i < |l2| ==> IsSpace(l2[i])
    requires m != [] && !IsSpace(m[0]) && !IsSpace(m[|m| - 1])
    ensures Strip(l1 + m + l2) == m
  {
    assert l1 + m + l2 == l1 + (m + l2);
    LeadingIs(l1, m + l2);
    assert (l1 + m + l2)[|l1|..] == m + l2;
    TrailingIs(m, l2);
    assert (m + l2)[..|m|] == m;
  }

  /** Leading whitespace followed by a non-space character: exactly that whitespace is counted. */
  lemma LeadingIs(p: string, q: string)
    requires forall i :: 0 <= i < |p| ==> IsSpace(p[i])
    requires q != [] && !IsSpace(q[0])
    ensures LeadingSpaces(p + q) == |p|
  {
    assert forall k :: 0 <= k < |p| ==> (p + q)[k] == p[k];
    assert (p + q)[|p|] == q[0];
  }

  /** A non-space character followed by trailing whitespace: exactly that whitespace is counted. */
  lemma TrailingIs(p: string, q: string)
    requires p != [] && !IsSpace(p[|p| - 1])
    requires forall i :: 0 <= i < |q| ==> IsSpace(q[i])
    ensures TrailingSpaces(p + q) == |q|
  {
    var s := p + q;
    assert forall k :: |p| <= k < |s| ==> s[k] == q[k - |p|];
    assert s[|p| - 1] == p[|p| - 1];
  }

  /** The choice can land on each candidate: with the right draw, any listed id is chosen. */
  lemma ChoiceCoversCandidates(ids: seq<string>, id: string)
    requires id in ids
    ensures exists pick: nat :: ChoosePlaylist(ids, pick) == id
  {
    var i :| 0 <= i < |ids| && ids[i] == id;
    assert ChoosePlaylist(ids, i) == id;
  }

  /**
   One playlist id is a candidate of both "lonely" and "hopeful", so a chosen
   id belongs to the requested mood's list without being exclusive to it.
   */
  lemma SharedPlaylistId()
    ensures "1M1ogQ10BKAdnW1SsMfsEc" in MoodPlaylists["lonely"]
    ensures "1M1ogQ10BKAdnW1SsMfsEc" in MoodPlaylists["hopeful"]
  {
  }
}
