/**
 * apply_artist_spacing: a greedy reordering that repeatedly places the most popular
 * remaining track whose artist was not placed within the last min_spacing positions,
 * and falls back to the head of the remaining pool when no such track exists.
 */
module Spacing {
  import opened Types

  const DefaultMinSpacing := 5

  // ---------------------------------------------------------------------------
  // The artist -> last position dictionary
  // ---------------------------------------------------------------------------

  /** artist_last_position as it stands after the tracks of `placed` were appended in order. */
  function LastPositions(placed: seq<Track>): map<string, nat>
  {
    if placed == [] then map[]
    else
      var n := |placed| - 1;
      LastPositions(placed[..n])[placed[n].artist := n]
  }

  /** Appending a track records its artist at the old output length. */
  lemma LastPositionsAppend(placed: seq<Track>, t: Track)
    ensures LastPositions(placed + [t]) == LastPositions(placed)[t.artist := |placed|]
  {
    assert (placed + [t])[..|placed|] == placed;
  }

  /**
   * The dictionary invariant of the loop: every artist placed so far is a key, every key maps
   * to a position holding a track by that artist (so the keys are exactly the placed artists),
   * and no later position holds a track by that artist.
   */
  lemma {:induction false} LastPositionsAreLast(placed: seq<Track>)
    ensures var lp := LastPositions(placed);
            forall i :: 0 <= i < |placed| ==> placed[i].artist in lp
    ensures var lp := LastPositions(placed);
            forall a :: a in lp ==> lp[a] < |placed| && placed[lp[a]].artist == a
    ensures var lp := LastPositions(placed);
            forall a, j :: a in lp && lp[a] < j < |placed| ==> placed[j].artist != a
  {
    if placed != [] {
      var n := |placed| - 1;
      var front := placed[..n];
      LastPositionsAreLast(front);
      var lp0 := LastPositions(front);
      var lp := LastPositions(placed);
      assert lp == lp0[placed[n].artist := n];
      forall i | 0 <= i < |placed| ensures placed[i].artist in lp {
        if i < n {
          assert front[i] == placed[i];
        }
      }
      forall a | a in lp ensures lp[a] < |placed| && placed[lp[a]].artist == a {
        if a != placed[n].artist {
          assert front[lp0[a]] == placed[lp0[a]];
        }
      }
      forall a, j | a in lp && lp[a] < j < |placed| ensures placed[j].artist != a {
        if j < n {
          assert front[j] == placed[j];
        }
      }
    }
  }

  /** The filter condition of the comprehension: never placed, or placed more than minSpacing ago. */
  predicate Eligible(lastPos: map<string, nat>, current: int, minSpacing: int, artist: string)
  {
    artist !in lastPos || current - lastPos[artist] > minSpacing
  }

  /** Some track by `artist` sits among the `p` first positions of `s`, at most minSpacing before p. */
  ghost predicate RecentlyPlaced(s: seq<Track>, p: nat, minSpacing: int, artist: string)
    requires p <= |s|
  {
    exists q :: 0 <= q < p && s[q].artist == artist && p - q <= minSpacing
  }

  /** The dictionary test agrees with the plain reading on positions. */
  lemma EligibleIffNotRecent(placed: seq<Track>, minSpacing: int, artist: string)
    ensures Eligible(LastPositions(placed), |placed|, minSpacing, artist)
            <==> !RecentlyPlaced(placed, |placed|, minSpacing, artist)
  {
    var lp := LastPositions(placed);
    LastPositionsAreLast(placed);
    if artist in lp {
      if Eligible(lp, |placed|, minSpacing, artist) {
        forall q | 0 <= q < |placed| && placed[q].artist == artist
          ensures |placed| - q > minSpacing
        {
          assert q <= lp[artist];
        }
      }
    }
  }

  // ---------------------------------------------------------------------------
  // The Python step: comprehension, max, list.remove
  // ---------------------------------------------------------------------------

  /** valid_tracks: the eligible tracks of the pool, in pool order. */
  function ValidTracks(available: seq<Track>, lastPos: map<string, nat>, current: int, minSpacing: int)
    : seq<Track>
  {
    if available == [] then []
    else
      var n := |available| - 1;
      ValidTracks(available[..n], lastPos, current, minSpacing)
        + (if Eligible(lastPos, current, minSpacing, available[n].artist) then [available[n]] else [])
  }

  /** The comprehension keeps exactly the eligible tracks of the pool. */
  lemma {:induction false} ValidTracksAreEligible(available: seq<Track>, lastPos: map<string, nat>, current: int, minSpacing: int)
    ensures var valid := ValidTracks(available, lastPos, current, minSpacing);
            forall i :: 0 <= i < |valid| ==> valid[i] in available && Eligible(lastPos, current, minSpacing, valid[i].artist)
    ensures var valid := ValidTracks(available, lastPos, current, minSpacing);
            forall i :: 0 <= i < |available| && Eligible(lastPos, current, minSpacing, available[i].artist)
                        ==> available[i] in valid
  {
    if available != [] {
      var n := |available| - 1;
      var front := available[..n];
      ValidTracksAreEligible(front, lastPos, current, minSpacing);
      assert available == front + [available[n]];
      forall i | 0 <= i < n ensures available[i] == front[i] { }
    }
  }

  /** max(valid, key=popularity): scanning left to right, it is replaced only by a strictly larger key. */
  function MostPopular(s: seq<Track>): Track
    requires s != []
  {
    if |s| == 1 then s[0]
    else
      var n := |s| - 1;
      var prev := MostPopular(s[..n]);
      if s[n].popularity > prev.popularity then s[n] else prev
  }

  /** The track max returns is of greatest popularity, and no earlier track is as popular. */
  lemma {:induction false} MostPopularIsFirstMax(s: seq<Track>) returns (i: nat)
    requires s != []
    ensures i < |s| && s[i] == MostPopular(s)
    ensures forall j :: 0 <= j < |s| ==> s[j].popularity <= s[i].popularity
    ensures forall j :: 0 <= j < i ==> s[j].popularity < s[i].popularity
  {
    if |s| == 1 {
      i := 0;
    } else {
      var n := |s| - 1;
      var front := s[..n];
      var i' := MostPopularIsFirstMax(front);
      forall j | 0 <= j < n ensures s[j] == front[j] { }
      if s[n].popularity > front[i'].popularity {
        i := n;
      } else {
        i := i';
      }
    }
  }

  /** Index of the first element of s equal to x. */
  function IndexOf(s: seq<Track>, x: Track): (i: nat)
    requires x in s
    ensures i < |s| && s[i] == x
    ensures forall j :: 0 <= j < i ==> s[j] != x
  {
    if s[0] == x then 0 else 1 + IndexOf(s[1..], x)
  }

  /** list.remove(x): deletes the first element equal to x. */
  function RemoveFirst(s: seq<Track>, x: Track): (r: seq<Track>)
    requires x in s
    ensures r == s[..IndexOf(s, x)] + s[IndexOf(s, x) + 1..]
  {
    if s[0] == x then s[1..]
    else
      var i := IndexOf(s[1..], x);
      assert s[..i + 1] == [s[0]] + s[1..][..i];
      assert s[i + 2..] == s[1..][i + 1..];
      [s[0]] + RemoveFirst(s[1..], x)
  }

  // ---------------------------------------------------------------------------
  // The pick rule, stated on indices
  // ---------------------------------------------------------------------------

  /** Index of the first eligible track of greatest popularity in the pool, if any (a left-to-right scan). */
  function BestEligible(available: seq<Track>, lastPos: map<string, nat>, current: int, minSpacing: int)
    : (best: Option<nat>)
    ensures best.Some? ==> best.value < |available|
  {
    if available == [] then None
    else
      var n := |available| - 1;
      var prev := BestEligible(available[..n], lastPos, current, minSpacing);
      if !Eligible(lastPos, current, minSpacing, available[n].artist) then prev
      else if prev.None? then Some(n)
      else if available[n].popularity > available[prev.value].popularity then Some(n)
      else prev
  }

  /** The scan finds nothing exactly when no track is eligible, and otherwise the first eligible maximum. */
  lemma {:induction false} BestEligibleIsFirstMax(available: seq<Track>, lastPos: map<string, nat>, current: int, minSpacing: int)
    ensures var best := BestEligible(available, lastPos, current, minSpacing);
            best.None? <==> forall i :: 0 <= i < |available| ==> !Eligible(lastPos, current, minSpacing, available[i].artist)
    ensures var best := BestEligible(available, lastPos, current, minSpacing);
            best.Some? ==> Eligible(lastPos, current, minSpacing, available[best.value].artist)
    ensures var best := BestEligible(available, lastPos, current, minSpacing);
            best.Some? ==> forall i :: 0 <= i < |available| && Eligible(lastPos, current, minSpacing, available[i].artist)
                                       ==> available[i].popularity <= available[best.value].popularity
    ensures var best := BestEligible(available, lastPos, current, minSpacing);
            best.Some? ==> forall i :: 0 <= i < best.value && Eligible(lastPos, current, minSpacing, available[i].artist)
                                       ==> available[i].popularity < available[best.value].popularity
  {
    if available != [] {
      var n := |available| - 1;
      BestEligibleIsFirstMax(available[..n], lastPos, current, minSpacing);
      assert forall i :: 0 <= i < n ==> available[..n][i] == available[i];
    }
  }

  /**
   * The index of the track placed next: the first eligible track of greatest popularity,
   * or the head of the pool when no track is eligible.
   */
  function Pick(available: seq<Track>, lastPos: map<string, nat>, current: int, minSpacing: int): (k: nat)
    requires available != []
    ensures k < |available|
  {
    match BestEligible(available, lastPos, current, minSpacing)
    case None => 0
    case Some(k) => k
  }

  /** The pick rule of apply_artist_spacing: the first eligible maximum, or the head of the pool. */
  lemma PickRule(available: seq<Track>, lastPos: map<string, nat>, current: int, minSpacing: int)
    requires available != []
    ensures var k := Pick(available, lastPos, current, minSpacing);
            (exists i :: 0 <= i < |available| && Eligible(lastPos, current, minSpacing, available[i].artist)) ==>
              Eligible(lastPos, current, minSpacing, available[k].artist)
              && (forall i :: 0 <= i < |available| && Eligible(lastPos, current, minSpacing, available[i].artist)
                              ==> available[i].popularity <= available[k].popularity)
              && (forall i :: 0 <= i < k && Eligible(lastPos, current, minSpacing, available[i].artist)
                              ==> available[i].popularity < available[k].popularity)
    ensures (forall i :: 0 <= i < |available| ==> !Eligible(lastPos, current, minSpacing, available[i].artist)) ==>
              Pick(available, lastPos, current, minSpacing) == 0
  {
    BestEligibleIsFirstMax(available, lastPos, current, minSpacing);
  }

  function RemoveAt(s: seq<Track>, k: nat): (r: seq<Track>)
    requires k < |s|
    ensures |r| == |s| - 1
    ensures multiset(r) + multiset{s[k]} == multiset(s)
  {
    assert s == s[..k] + [s[k]] + s[k + 1..];
    s[..k] + s[k + 1..]
  }

  /**
   * The reordering from a state with `placed` already output and `available` still in the pool:
   * the output keeps `placed` as its prefix and continues with a permutation of `available`.
   */
  function Spaced(placed: seq<Track>, available: seq<Track>, minSpacing: int): (out: seq<Track>)
    ensures |out| == |placed| + |available|
    ensures placed <= out
    decreases |available|
  {
    if available == [] then placed
    else
      var k := Pick(available, LastPositions(placed), |placed|, minSpacing);
      Spaced(placed + [available[k]], RemoveAt(available, k), minSpacing)
  }

  /** What Spaced appends to `placed` is a permutation of the pool. */
  lemma {:induction false} SpacedPermutes(placed: seq<Track>, available: seq<Track>, minSpacing: int)
    ensures var out := Spaced(placed, available, minSpacing);
            out == placed + out[|placed|..] && multiset(out[|placed|..]) == multiset(available)
    decreases |available|
  {
    if available == [] {
      assert Spaced(placed, available, minSpacing) == placed;
      assert placed[|placed|..] == [];
    } else {
      var k := Pick(available, LastPositions(placed), |placed|, minSpacing);
      var x := available[k];
      var next := placed + [x];
      var rest := RemoveAt(available, k);
      var out := Spaced(next, rest, minSpacing);
      assert Spaced(placed, available, minSpacing) == out;
      SpacedPermutes(next, rest, minSpacing);
      var tail := out[|next|..];
      SuffixAfter(placed, x, tail, out);
      assert multiset([x] + tail) == multiset{x} + multiset(tail);
    }
  }

  /** The reordering of a whole track list. */
  function ArtistSpacing(tracks: seq<Track>, minSpacing: int): seq<Track>
  {
    Spaced([], tracks, minSpacing)
  }

  /** The reordering is a permutation: same length, same multiset of tracks. */
  lemma ArtistSpacingPermutes(tracks: seq<Track>, minSpacing: int)
    ensures |ArtistSpacing(tracks, minSpacing)| == |tracks|
    ensures multiset(ArtistSpacing(tracks, minSpacing)) == multiset(tracks)
  {
    SpacedPermutes([], tracks, minSpacing);
  }

  // ---------------------------------------------------------------------------
  // The Python step makes the same choice as Pick
  // ---------------------------------------------------------------------------

  /** The comprehension is empty exactly when BestEligible finds nothing, and max then picks that index. */
  lemma {:induction false} MaxOfValidIsBest(available: seq<Track>, lastPos: map<string, nat>, current: int, minSpacing: int)
    ensures ValidTracks(available, lastPos, current, minSpacing) == []
            <==> BestEligible(available, lastPos, current, minSpacing).None?
    ensures BestEligible(available, lastPos, current, minSpacing).Some? ==>
              MostPopular(ValidTracks(available, lastPos, current, minSpacing))
              == available[BestEligible(available, lastPos, current, minSpacing).value]
  {
    if available != [] {
      var n := |available| - 1;
      var front := available[..n];
      MaxOfValidIsBest(front, lastPos, current, minSpacing);
      var valid' := ValidTracks(front, lastPos, current, minSpacing);
      var prev := BestEligible(front, lastPos, current, minSpacing);
      var x := available[n];
      if prev.Some? {
        assert front[prev.value] == available[prev.value];
      }
      if Eligible(lastPos, current, minSpacing, x.artist) {
        var valid := valid' + [x];
        assert ValidTracks(available, lastPos, current, minSpacing) == valid;
        if valid' == [] {
          assert valid == [x];
        } else {
          assert valid[..|valid| - 1] == valid';
          assert MostPopular(valid) == if x.popularity > MostPopular(valid').popularity then x else MostPopular(valid');
        }
      } else {
        assert ValidTracks(available, lastPos, current, minSpacing) == valid' + [];
        assert valid' + [] == valid';
      }
    }
  }

  /** One iteration of the while loop: the chosen track is available[Pick(..)] and remove() deletes that index. */
  lemma StepIsPick(available: seq<Track>, lastPos: map<string, nat>, current: int, minSpacing: int)
    requires available != []
    ensures var valid := ValidTracks(available, lastPos, current, minSpacing);
            var track := if valid == [] then available[0] else MostPopular(valid);
            var k := Pick(available, lastPos, current, minSpacing);
            track == available[k] && RemoveFirst(available, track) == RemoveAt(available, k)
  {
    var valid := ValidTracks(available, lastPos, current, minSpacing);
    var k := Pick(available, lastPos, current, minSpacing);
    MaxOfValidIsBest(available, lastPos, current, minSpacing);
    var best := BestEligible(available, lastPos, current, minSpacing);
    if valid == [] {
      assert k == 0;
      assert IndexOf(available, available[0]) == 0;
    } else {
      assert best == Some(k);
      BestEligibleIsFirstMax(available, lastPos, current, minSpacing);
      var track := MostPopular(valid);
      assert track == available[k];
      var i := IndexOf(available, track);
      assert i <= k;
      assert available[i].artist == available[k].artist && available[i].popularity == available[k].popularity;
      assert Eligible(lastPos, current, minSpacing, available[i].artist);
      assert i == k;
    }
  }

  // ---------------------------------------------------------------------------
  // The loop of apply_artist_spacing
  // ---------------------------------------------------------------------------

  /**
   * apply_artist_spacing with the pool, the output and the dictionary as loop state.
   * Each iteration removes one track from the pool, which bounds the loop.
   */
  method ApplyArtistSpacing(tracks: seq<Track>, minSpacing: int) returns (finalTracks: seq<Track>)
    ensures finalTracks == ArtistSpacing(tracks, minSpacing)
    ensures multiset(finalTracks) == multiset(tracks)
  {
    finalTracks := [];
    var availableTracks := tracks;
    var artistLastPosition: map<string, nat> := map[];
    while availableTracks != []
      invariant artistLastPosition == LastPositions(finalTracks)
      invariant Spaced(finalTracks, availableTracks, minSpacing) == ArtistSpacing(tracks, minSpacing)
      decreases |availableTracks|
    {
      var currentPosition := |finalTracks|;
      var validTracks := ValidTracks(availableTracks, artistLastPosition, currentPosition, minSpacing);
      var track;
      if validTracks == [] {
        track := availableTracks[0];
      } else {
        track := MostPopular(validTracks);
      }
      StepIsPick(availableTracks, artistLastPosition, currentPosition, minSpacing);
      SpacedStep(finalTracks, availableTracks, minSpacing);
      LastPositionsAppend(finalTracks, track);
      finalTracks := finalTracks + [track];
      availableTracks := RemoveFirst(availableTracks, track);
      artistLastPosition := artistLastPosition[track.artist := currentPosition];
    }
    ArtistSpacingPermutes(tracks, minSpacing);
  }

  // ---------------------------------------------------------------------------
  // What the reordering guarantees
  // ---------------------------------------------------------------------------

  /**
   * Greedy choice, stated on the output alone: if at position p some still-unplaced track
   * (one at a position j >= p) was not recently placed, then out[p] was not recently placed
   * either, and it is at least as popular as every such track.
   */
  ghost predicate GreedyAt(out: seq<Track>, p: nat, minSpacing: int)
    requires p < |out|
  {
    forall j :: p <= j < |out| && !RecentlyPlaced(out, p, minSpacing, out[j].artist) ==>
      !RecentlyPlaced(out, p, minSpacing, out[p].artist) && out[j].popularity <= out[p].popularity
  }

  lemma RecentInPrefix(out: seq<Track>, placed: seq<Track>, minSpacing: int, artist: string)
    requires |placed| <= |out| && out[..|placed|] == placed
    ensures RecentlyPlaced(out, |placed|, minSpacing, artist) <==> RecentlyPlaced(placed, |placed|, minSpacing, artist)
  {
    assert forall q :: 0 <= q < |placed| ==> out[q] == placed[q] by {
      forall q | 0 <= q < |placed| ensures out[q] == placed[q] {
        assert out[..|placed|][q] == out[q];
      }
    }
  }

  /** One unfolding of Spaced. */
  lemma SpacedStep(placed: seq<Track>, available: seq<Track>, minSpacing: int)
    requires available != []
    ensures var k := Pick(available, LastPositions(placed), |placed|, minSpacing);
            Spaced(placed, available, minSpacing)
            == Spaced(placed + [available[k]], RemoveAt(available, k), minSpacing)
  {
  }

  /** The track Spaced places first from a state is the greedy choice at that position. */
  lemma GreedyFirst(placed: seq<Track>, available: seq<Track>, minSpacing: int)
    requires available != []
    ensures GreedyAt(Spaced(placed, available, minSpacing), |placed|, minSpacing)
  {
    var lp := LastPositions(placed);
    var k := Pick(available, lp, |placed|, minSpacing);
    var next := placed + [available[k]];
    var out := Spaced(placed, available, minSpacing);
    SpacedStep(placed, available, minSpacing);
    PickRule(available, lp, |placed|, minSpacing);
    var p := |placed|;
    SpacedPermutes(placed, available, minSpacing);
    assert out[p] == available[k] by {
      assert out[p] == next[p];
    }
    RecentInPrefix(out, placed, minSpacing, out[p].artist);
    EligibleIffNotRecent(placed, minSpacing, out[p].artist);
    forall j | p <= j < |out| && !RecentlyPlaced(out, p, minSpacing, out[j].artist)
      ensures !RecentlyPlaced(out, p, minSpacing, out[p].artist) && out[j].popularity <= out[p].popularity
    {
      assert out[j] == out[p..][j - p];
      assert out[j] in multiset(available);
      var i :| 0 <= i < |available| && available[i] == out[j];
      RecentInPrefix(out, placed, minSpacing, out[j].artist);
      EligibleIffNotRecent(placed, minSpacing, out[j].artist);
      assert Eligible(lp, |placed|, minSpacing, available[i].artist);
    }
  }

  lemma {:induction false} SpacedIsGreedy(placed: seq<Track>, available: seq<Track>, minSpacing: int)
    ensures var out := Spaced(placed, available, minSpacing);
            forall p :: |placed| <= p < |out| ==> GreedyAt(out, p, minSpacing)
    decreases |available|
  {
    if available != [] {
      var k := Pick(available, LastPositions(placed), |placed|, minSpacing);
      SpacedStep(placed, available, minSpacing);
      SpacedIsGreedy(placed + [available[k]], RemoveAt(available, k), minSpacing);
      GreedyFirst(placed, available, minSpacing);
    }
  }

  /**
   * The spacing guarantee: a track placed within minSpacing of an earlier track by the same
   * artist was placed only because every track still in the pool at that step was recently
   * placed; otherwise the placed track is the most popular of those that were not.
   */
  lemma SpacingGuarantee(tracks: seq<Track>, minSpacing: int)
    ensures var out := ArtistSpacing(tracks, minSpacing);
            forall p, j :: 0 <= p <= j < |out| && !RecentlyPlaced(out, p, minSpacing, out[j].artist) ==>
              !RecentlyPlaced(out, p, minSpacing, out[p].artist) && out[j].popularity <= out[p].popularity
    ensures var out := ArtistSpacing(tracks, minSpacing);
            forall q, p :: 0 <= q < p < |out| && out[q].artist == out[p].artist && p - q <= minSpacing ==>
              forall j :: p <= j < |out| ==> RecentlyPlaced(out, p, minSpacing, out[j].artist)
  {
    var out := ArtistSpacing(tracks, minSpacing);
    assert out == Spaced([], tracks, minSpacing);
    SpacedIsGreedy([], tracks, minSpacing);
    forall p, j | 0 <= p <= j < |out| && !RecentlyPlaced(out, p, minSpacing, out[j].artist)
      ensures !RecentlyPlaced(out, p, minSpacing, out[p].artist) && out[j].popularity <= out[p].popularity
    {
      assert GreedyAt(out, p, minSpacing);
    }
    forall q, p | 0 <= q < p < |out| && out[q].artist == out[p].artist && p - q <= minSpacing
      ensures forall j :: p <= j < |out| ==> RecentlyPlaced(out, p, minSpacing, out[j].artist)
    {
      assert RecentlyPlaced(out, p, minSpacing, out[p].artist);
      assert GreedyAt(out, p, minSpacing);
    }
  }

  // ---------------------------------------------------------------------------
  // Fixed point
  // ---------------------------------------------------------------------------

  ghost predicate DistinctArtists(s: seq<Track>)
  {
    forall i, j :: 0 <= i < j < |s| ==> s[i].artist != s[j].artist
  }

  ghost predicate ByPopularityDescending(s: seq<Track>)
  {
    forall i, j :: 0 <= i < j < |s| ==> s[i].popularity >= s[j].popularity
  }

  lemma {:induction false} SpacedFixedPoint(tracks: seq<Track>, p: nat, minSpacing: int)
    requires p <= |tracks|
    requires DistinctArtists(tracks) && ByPopularityDescending(tracks)
    ensures Spaced(tracks[..p], tracks[p..], minSpacing) == tracks
    decreases |tracks| - p
  {
    if p == |tracks| {
      assert tracks[..p] == tracks;
      assert tracks[p..] == [];
    } else {
      var placed, available := tracks[..p], tracks[p..];
      FixedPick(tracks, p, minSpacing);
      assert placed + [available[0]] == tracks[..p + 1];
      assert RemoveAt(available, 0) == tracks[p + 1..];
      SpacedFixedPoint(tracks, p + 1, minSpacing);
    }
  }

  /** On such a list every remaining track is eligible, so the pick is the head of the pool. */
  lemma FixedPick(tracks: seq<Track>, p: nat, minSpacing: int)
    requires p < |tracks|
    requires DistinctArtists(tracks) && ByPopularityDescending(tracks)
    ensures Pick(tracks[p..], LastPositions(tracks[..p]), p, minSpacing) == 0
  {
    var placed, available := tracks[..p], tracks[p..];
    var lp := LastPositions(placed);
    forall i | 0 <= i < |available| ensures Eligible(lp, p, minSpacing, available[i].artist) {
      NotPlacedIsEligible(tracks, p, p + i, minSpacing);
    }
    var k := Pick(available, lp, p, minSpacing);
    PickRule(available, lp, p, minSpacing);
    assert available[0].popularity >= available[k].popularity by {
      assert available[0] == tracks[p] && available[k] == tracks[p + k];
    }
  }

  lemma NotPlacedIsEligible(tracks: seq<Track>, p: nat, j: nat, minSpacing: int)
    requires p <= j < |tracks|
    requires DistinctArtists(tracks)
    ensures Eligible(LastPositions(tracks[..p]), p, minSpacing, tracks[j].artist)
  {
    var placed := tracks[..p];
    LastPositionsAreLast(placed);
    forall q | 0 <= q < p ensures placed[q].artist != tracks[j].artist {
      assert placed[q] == tracks[q];
    }
  }

  /** A list with no repeated artist, already by popularity descending, is left as it is. */
  lemma FixedPoint(tracks: seq<Track>, minSpacing: int)
    requires DistinctArtists(tracks) && ByPopularityDescending(tracks)
    ensures ArtistSpacing(tracks, minSpacing) == tracks
  {
    SpacedFixedPoint(tracks, 0, minSpacing);
    assert tracks[..0] == [] && tracks[0..] == tracks;
  }
}
