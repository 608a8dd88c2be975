/**
 * The ranking step of sort_single_playlist: keep the tracks whose uri contains
 * "spotify:track:", sort them by popularity from high to low with a stable sort, and keep
 * at most the first 500.
 */
module Ranking {
  import opened Types

  const TrackUriMarker := "spotify:track:"
  const MaxPlanLength := 500

  // ---------------------------------------------------------------------------
  // The uri filter
  // ---------------------------------------------------------------------------

  predicate StartsWith(s: string, prefix: string)
  {
    |prefix| <= |s| && s[..|prefix|] == prefix
  }

  /** Python's `part in s` on strings: part occurs somewhere in s. */
  predicate Contains(s: string, part: string)
    decreases |s|
  {
    StartsWith(s, part) || (s != [] && Contains(s[1..], part))
  }

  /** Contains is a substring test at any offset, not a prefix test. */
  lemma {:induction false} ContainsIsSubstring(s: string, part: string)
    ensures Contains(s, part) <==> exists i :: 0 <= i <= |s| && StartsWith(s[i..], part)
    decreases |s|
  {
    if s != [] {
      ContainsIsSubstring(s[1..], part);
      if Contains(s[1..], part) {
        var i :| 0 <= i <= |s[1..]| && StartsWith(s[1..][i..], part);
        assert s[1..][i..] == s[i + 1..];
      }
      forall i | 1 <= i <= |s| && StartsWith(s[i..], part) ensures Contains(s[1..], part) {
        assert s[1..][i - 1..] == s[i..];
      }
    }
    assert s[0..] == s;
  }

  /** A uri with the marker after some other text still counts as a track uri. */
  lemma MarkerNeedNotLead()
    ensures Contains("x" + TrackUriMarker, TrackUriMarker)
    ensures !StartsWith("x" + TrackUriMarker, TrackUriMarker)
  {
    var s := "x" + TrackUriMarker;
    assert s[1..][..|TrackUriMarker|] == TrackUriMarker;
    assert s[..|TrackUriMarker|][0] == 'x';
  }

  predicate HasTrackUri(t: Track)
  {
    Contains(t.uri, TrackUriMarker)
  }

  /** valid_tracks: the fetched tracks whose uri contains the marker, in fetch order. */
  function KeepTrackUris(tracks: seq<Track>): seq<Track>
  {
    if tracks == [] then []
    else (if HasTrackUri(tracks[0]) then [tracks[0]] else []) + KeepTrackUris(tracks[1..])
  }

  /** The filter keeps every copy of a track with a track uri and no copy of any other. */
  lemma {:induction false} KeepTrackUrisCounts(tracks: seq<Track>)
    ensures var kept := KeepTrackUris(tracks);
            forall t :: multiset(kept)[t] == if HasTrackUri(t) then multiset(tracks)[t] else 0
    ensures var kept := KeepTrackUris(tracks);
            forall i :: 0 <= i < |kept| ==> HasTrackUri(kept[i])
  {
    if tracks != [] {
      KeepTrackUrisCounts(tracks[1..]);
      assert tracks == [tracks[0]] + tracks[1..];
    }
  }

  // ---------------------------------------------------------------------------
  // The stable sort, popularity descending
  // ---------------------------------------------------------------------------

  ghost predicate NonIncreasing(s: seq<Track>)
  {
    forall i, j :: 0 <= i < j < |s| ==> s[i].popularity >= s[j].popularity
  }

  /** The tracks of popularity v, in their order in s. */
  function WithPopularity(s: seq<Track>, v: int): seq<Track>
  {
    if s == [] then []
    else (if s[0].popularity == v then [s[0]] else []) + WithPopularity(s[1..], v)
  }

  /** Puts x in front of the first track that is not more popular than x. */
  function Insert(x: Track, s: seq<Track>): seq<Track>
  {
    if s == [] then [x]
    else if x.popularity >= s[0].popularity then [x] + s
    else [s[0]] + Insert(x, s[1..])
  }

  /** sorted(tracks, key=popularity, reverse=True), as a stable insertion sort. */
  function SortByPopularity(s: seq<Track>): seq<Track>
  {
    if s == [] then [] else Insert(s[0], SortByPopularity(s[1..]))
  }

  lemma {:induction false} InsertPermutes(x: Track, s: seq<Track>)
    ensures multiset(Insert(x, s)) == multiset(s) + multiset{x}
  {
    if s != [] && x.popularity < s[0].popularity {
      InsertPermutes(x, s[1..]);
      assert s == [s[0]] + s[1..];
    }
  }

  lemma {:induction false} InsertKeepsOrder(x: Track, s: seq<Track>)
    requires NonIncreasing(s)
    ensures NonIncreasing(Insert(x, s))
    ensures multiset(Insert(x, s)) == multiset(s) + multiset{x}
  {
    InsertPermutes(x, s);
    if s != [] && x.popularity < s[0].popularity {
      var tail := Insert(x, s[1..]);
      TailNonIncreasing(s);
      InsertKeepsOrder(x, s[1..]);
      InsertBelowHead(x, s, tail);
      ConsNonIncreasing(s[0], tail);
    } else if s != [] {
      ConsNonIncreasing(x, s);
    }
  }

  lemma TailNonIncreasing(s: seq<Track>)
    requires NonIncreasing(s) && s != []
    ensures NonIncreasing(s[1..])
  {
    var t := s[1..];
    forall i, j | 0 <= i < j < |t| ensures t[i].popularity >= t[j].popularity {
      assert t[i] == s[i + 1] && t[j] == s[j + 1];
    }
  }

  lemma ConsNonIncreasing(h: Track, tail: seq<Track>)
    requires NonIncreasing(tail)
    requires forall k :: 0 <= k < |tail| ==> tail[k].popularity <= h.popularity
    ensures NonIncreasing([h] + tail)
  {
    var r := [h] + tail;
    forall i, j | 0 <= i < j < |r| ensures r[i].popularity >= r[j].popularity {
      assert r[j] == tail[j - 1];
      if i > 0 {
        assert r[i] == tail[i - 1];
      }
    }
  }

  lemma InsertBelowHead(x: Track, s: seq<Track>, tail: seq<Track>)
    requires NonIncreasing(s)
    requires s != [] && x.popularity < s[0].popularity
    requires multiset(tail) == multiset(s[1..]) + multiset{x}
    ensures forall k :: 0 <= k < |tail| ==> tail[k].popularity <= s[0].popularity
  {
    forall k | 0 <= k < |tail| ensures tail[k].popularity <= s[0].popularity {
      var t := tail[k];
      assert t in multiset(tail);
      if t != x {
        assert t in s[1..];
        var m :| 0 <= m < |s[1..]| && s[1..][m] == t;
        assert s[m + 1] == t;
      }
    }
  }

  lemma {:induction false} InsertKeepsGroups(x: Track, s: seq<Track>, v: int)
    ensures WithPopularity(Insert(x, s), v) == (if x.popularity == v then [x] else []) + WithPopularity(s, v)
  {
    var hx := if x.popularity == v then [x] else [];
    if s == [] {
      WithPopularityCons(x, [], v);
    } else if x.popularity >= s[0].popularity {
      WithPopularityCons(x, s, v);
    } else {
      var tail := Insert(x, s[1..]);
      var h0 := if s[0].popularity == v then [s[0]] else [];
      InsertKeepsGroups(x, s[1..], v);
      WithPopularityCons(s[0], tail, v);
      WithPopularityCons(s[0], s[1..], v);
      assert s == [s[0]] + s[1..];
      var w := WithPopularity(s[1..], v);
      assert h0 + (hx + w) == hx + (h0 + w) by {
        if hx == [] {
          assert hx + w == w && hx + (h0 + w) == h0 + w;
        } else {
          assert h0 == [];
          assert h0 + (hx + w) == hx + w && h0 + w == w;
        }
      }
    }
  }

  lemma WithPopularityCons(y: Track, t: seq<Track>, v: int)
    ensures WithPopularity([y] + t, v) == (if y.popularity == v then [y] else []) + WithPopularity(t, v)
  {
    assert ([y] + t)[1..] == t;
  }

  /**
   * The sort puts popularity in non-increasing order, is a permutation, and is stable:
   * for each popularity value the tracks of that value keep their input order.
   */
  lemma {:induction false} SortIsStable(s: seq<Track>)
    ensures NonIncreasing(SortByPopularity(s))
    ensures multiset(SortByPopularity(s)) == multiset(s)
    ensures forall v :: WithPopularity(SortByPopularity(s), v) == WithPopularity(s, v)
  {
    if s != [] {
      SortIsStable(s[1..]);
      InsertKeepsOrder(s[0], SortByPopularity(s[1..]));
      forall v ensures WithPopularity(SortByPopularity(s), v) == WithPopularity(s, v) {
        InsertKeepsGroups(s[0], SortByPopularity(s[1..]), v);
      }
      assert s == [s[0]] + s[1..];
    }
  }

  /** A track group that is not empty has a popularity no greater than the head of a non-increasing list. */
  lemma {:induction false} GroupBelowHead(r: seq<Track>, v: int)
    requires NonIncreasing(r)
    ensures WithPopularity(r, v) != [] ==> r != [] && v <= r[0].popularity
  {
    if r != [] && r[0].popularity != v {
      GroupBelowHead(r[1..], v);
      if WithPopularity(r[1..], v) != [] {
        assert r[1..][0] == r[1];
      }
    }
  }

  lemma HeadGroupNotEmpty(r: seq<Track>)
    ensures r != [] ==> WithPopularity(r, r[0].popularity) != []
  {
    if r != [] {
      assert WithPopularity(r, r[0].popularity)[0] == r[0];
    }
  }

  /**
   * Two non-increasing arrangements with the same tracks, in the same order, at every
   * popularity value are the same list.
   */
  lemma {:induction false} ArrangementIsUnique(r1: seq<Track>, r2: seq<Track>)
    requires NonIncreasing(r1) && NonIncreasing(r2)
    requires forall v :: WithPopularity(r1, v) == WithPopularity(r2, v)
    ensures r1 == r2
    decreases |r1| + |r2|
  {
    if r1 == [] || r2 == [] {
      HeadGroupNotEmpty(r1);
      HeadGroupNotEmpty(r2);
    } else {
      var v1, v2 := r1[0].popularity, r2[0].popularity;
      assert WithPopularity(r1, v1)[0] == r1[0];
      assert WithPopularity(r2, v2)[0] == r2[0];
      GroupBelowHead(r1, v2);
      GroupBelowHead(r2, v1);
      assert v1 == v2;
      assert r1[0] == r2[0] by {
        assert WithPopularity(r1, v1)[0] == WithPopularity(r2, v1)[0];
      }
      forall v ensures WithPopularity(r1[1..], v) == WithPopularity(r2[1..], v) {
        var g1, g2 := WithPopularity(r1[1..], v), WithPopularity(r2[1..], v);
        if v == v1 {
          assert WithPopularity(r1, v) == [r1[0]] + g1;
          assert WithPopularity(r2, v) == [r2[0]] + g2;
          assert g1 == WithPopularity(r1, v)[1..];
          assert g2 == WithPopularity(r2, v)[1..];
        } else {
          assert WithPopularity(r1, v) == [] + g1 == g1;
          assert WithPopularity(r2, v) == [] + g2 == g2;
        }
      }
      ArrangementIsUnique(r1[1..], r2[1..]);
      assert r1 == [r1[0]] + r1[1..] && r2 == [r2[0]] + r2[1..];
    }
  }

  /** Any stable sort gives the same list as SortByPopularity, so the choice of algorithm does not matter. */
  lemma StableSortIsDetermined(s: seq<Track>, r: seq<Track>)
    requires NonIncreasing(r)
    requires forall v :: WithPopularity(r, v) == WithPopularity(s, v)
    ensures r == SortByPopularity(s)
  {
    SortIsStable(s);
    ArrangementIsUnique(r, SortByPopularity(s));
  }

  // ---------------------------------------------------------------------------
  // The cap and the whole ranking
  // ---------------------------------------------------------------------------

  /** Python's s[:n] for n >= 0. */
  function Take(s: seq<Track>, n: nat): (r: seq<Track>)
    ensures r <= s
    ensures |s| <= n ==> r == s
    ensures |s| > n ==> |r| == n
  {
    if |s| <= n then s else s[..n]
  }

  /** sorted_tracks after the cap: filtered, sorted, at most 500 long. */
  function Rank(tracks: seq<Track>): seq<Track>
  {
    Take(SortByPopularity(KeepTrackUris(tracks)), MaxPlanLength)
  }

  lemma {:induction false} PrefixGroups(s: seq<Track>, n: nat, v: int)
    requires n <= |s|
    ensures WithPopularity(s[..n], v) <= WithPopularity(s, v)
  {
    if n > 0 {
      PrefixGroups(s[1..], n - 1, v);
      assert s[..n][1..] == s[1..][..n - 1];
    }
  }

  /** The ranked list holds min(#filtered, 500) tracks, in non-increasing popularity, each with a track uri. */
  lemma RankShape(tracks: seq<Track>)
    ensures var kept := KeepTrackUris(tracks);
            |Rank(tracks)| == if |kept| <= MaxPlanLength then |kept| else MaxPlanLength
    ensures NonIncreasing(Rank(tracks))
    ensures forall i :: 0 <= i < |Rank(tracks)| ==> HasTrackUri(Rank(tracks)[i])
  {
    var kept := KeepTrackUris(tracks);
    var sorted := SortByPopularity(kept);
    SortIsStable(kept);
    assert |sorted| == |kept| by {
      assert |multiset(sorted)| == |multiset(kept)|;
    }
    var n := if |sorted| <= MaxPlanLength then |sorted| else MaxPlanLength;
    var r := sorted[..n];
    assert Rank(tracks) == r;
    assert NonIncreasing(r) by {
      forall i, j | 0 <= i < j < |r| ensures r[i].popularity >= r[j].popularity {
        assert r[i] == sorted[i] && r[j] == sorted[j];
      }
    }
    forall i | 0 <= i < |r| ensures HasTrackUri(r[i]) {
      SortedHasTrackUri(tracks, sorted, i);
    }
  }

  lemma SortedHasTrackUri(tracks: seq<Track>, sorted: seq<Track>, i: int)
    requires multiset(sorted) == multiset(KeepTrackUris(tracks))
    requires 0 <= i < |sorted|
    ensures HasTrackUri(sorted[i])
  {
    var kept := KeepTrackUris(tracks);
    KeepTrackUrisCounts(tracks);
    assert sorted[i] in multiset(sorted);
    assert multiset(kept)[sorted[i]] > 0;
  }

  /**
   * The cap drops only the least popular filtered tracks, and among equal popularity the
   * ranked list keeps a prefix of the fetch order.
   */
  lemma RankKeepsTop(tracks: seq<Track>)
    ensures multiset(Rank(tracks)) <= multiset(KeepTrackUris(tracks))
    ensures forall v :: WithPopularity(Rank(tracks), v) <= WithPopularity(KeepTrackUris(tracks), v)
    ensures var r := Rank(tracks);
            var kept := KeepTrackUris(tracks);
            forall t: Track, i :: 0 <= i < |r| && multiset(r)[t] < multiset(kept)[t] ==> t.popularity <= r[i].popularity
  {
    var kept := KeepTrackUris(tracks);
    var sorted := SortByPopularity(kept);
    var r := Rank(tracks);
    SortIsStable(kept);
    var n := if |sorted| <= MaxPlanLength then |sorted| else MaxPlanLength;
    assert r == sorted[..n];
    assert sorted == r + sorted[n..];
    assert multiset(kept) == multiset(r) + multiset(sorted[n..]);
    forall v ensures WithPopularity(r, v) <= WithPopularity(kept, v) {
      PrefixGroups(sorted, n, v);
    }
    forall t: Track, i | 0 <= i < |r| && multiset(r)[t] < multiset(kept)[t] ensures t.popularity <= r[i].popularity {
      DroppedBelowKept(sorted, n, t, i);
    }
  }

  /** What a prefix of a non-increasing list leaves out is no more popular than what it keeps. */
  lemma DroppedBelowKept(sorted: seq<Track>, n: nat, t: Track, i: nat)
    requires NonIncreasing(sorted) && i < n <= |sorted|
    requires t in multiset(sorted[n..])
    ensures t.popularity <= sorted[..n][i].popularity
  {
    var j :| 0 <= j < |sorted[n..]| && sorted[n..][j] == t;
    assert sorted[n + j] == t && sorted[..n][i] == sorted[i];
  }
}
