/**
 * sort_single_playlist as a whole: read every page, rank the playable tracks, space out
 * repeated artists, and write the uri list back in chunks. The two scripts stand for the
 * answers of the Spotify Web API to the reads and to the writes.
 */
module Sorter {
  import opened Types
  import Fetch
  import Ranking
  import Spacing
  import Commit

  /**
   * Succeeded and Failed are the True and False that sort_single_playlist returns;
   * Unfinished is a run that a script was too short to finish.
   */
  datatype Outcome = Succeeded | Failed | Unfinished

  /** The answer, and the playlist as the service holds it afterwards. */
  datatype SortResult = SortResult(outcome: Outcome, playlist: seq<string>)

  /** The uri list written back for the fetched tracks. */
  function Plan(tracks: seq<Track>): seq<string>
  {
    Uris(Spacing.ArtistSpacing(Ranking.Rank(tracks), Spacing.DefaultMinSpacing))
  }

  function SortPlaylist(pages: seq<Fetch.Response>, answers: seq<Commit.Status>, playlist: seq<string>): SortResult
  {
    match Fetch.FetchAll(pages)
    case FetchFailed(_) => SortResult(Failed, playlist)
    case OutOfScript => SortResult(Unfinished, playlist)
    case Fetched(tracks, _) =>
      var run := Commit.CommitAll(Plan(tracks), answers, playlist);
      match run.end
      case Completed => SortResult(Succeeded, run.playlist)
      case Raised(_) => SortResult(Failed, run.playlist)
      case OutOfScript => SortResult(Unfinished, run.playlist)
  }

  /** sort_single_playlist, with the sleeps and messages left out. */
  method SortSinglePlaylist(pages: seq<Fetch.Response>, answers: seq<Commit.Status>, playlist0: seq<string>)
    returns (result: SortResult)
    ensures result == SortPlaylist(pages, answers, playlist0)
  {
    var fetched := Fetch.FetchPlaylist(pages);
    if fetched.FetchFailed? {
      return SortResult(Failed, playlist0);
    } else if fetched.OutOfScript? {
      return SortResult(Unfinished, playlist0);
    }
    var sortedTracks := Ranking.Rank(fetched.tracks);
    var spacedTracks := Spacing.ApplyArtistSpacing(sortedTracks, Spacing.DefaultMinSpacing);
    var trackUris := Uris(spacedTracks);
    var run := Commit.CommitPlan(trackUris, answers, playlist0);
    if run.end.Completed? {
      result := SortResult(Succeeded, run.playlist);
    } else if run.end.Raised? {
      result := SortResult(Failed, run.playlist);
    } else {
      result := SortResult(Unfinished, run.playlist);
    }
  }

  /**
   * The plan holds min(#playable tracks with a track uri, 500) uris, each of which contains
   * "spotify:track:", and is a reordering of the uris of the ranked tracks.
   */
  lemma PlanShape(tracks: seq<Track>)
    ensures var kept := Ranking.KeepTrackUris(tracks);
            |Plan(tracks)| == if |kept| <= Ranking.MaxPlanLength then |kept| else Ranking.MaxPlanLength
    ensures forall k :: 0 <= k < |Plan(tracks)| ==> Ranking.Contains(Plan(tracks)[k], Ranking.TrackUriMarker)
    ensures multiset(Plan(tracks)) == multiset(Uris(Ranking.Rank(tracks)))
  {
    var ranked := Ranking.Rank(tracks);
    var spaced := Spacing.ArtistSpacing(ranked, Spacing.DefaultMinSpacing);
    Ranking.RankShape(tracks);
    Spacing.ArtistSpacingPermutes(ranked, Spacing.DefaultMinSpacing);
    forall k | 0 <= k < |spaced| ensures Ranking.HasTrackUri(spaced[k]) {
      assert spaced[k] in multiset(ranked);
      var j :| 0 <= j < |ranked| && ranked[j] == spaced[k];
    }
    UrisOfPermutation(spaced, ranked);
  }

  /** Renaming tracks to their uris keeps a permutation a permutation. */
  lemma {:induction false} UrisOfPermutation(s: seq<Track>, t: seq<Track>)
    requires multiset(s) == multiset(t)
    ensures multiset(Uris(s)) == multiset(Uris(t))
    decreases |s|
  {
    if s == [] {
      assert |t| == |multiset(t)| == 0;
    } else {
      var x := s[0];
      assert x in multiset(t);
      var j :| 0 <= j < |t| && t[j] == x;
      var t' := t[..j] + t[j + 1..];
      RemoveOne(t, j);
      PermutationTail(s, t');
      UrisOfPermutation(s[1..], t');
      UrisCons(s, t');
    }
  }

  lemma PermutationTail(s: seq<Track>, t': seq<Track>)
    requires s != [] && multiset(s) == multiset(t') + multiset{s[0]}
    ensures multiset(s[1..]) == multiset(t')
  {
    assert s == [s[0]] + s[1..];
    Cancel(s[0], multiset(s[1..]), multiset(t'));
  }

  lemma UrisCons(s: seq<Track>, t': seq<Track>)
    requires s != [] && multiset(Uris(s[1..])) == multiset(Uris(t'))
    ensures multiset(Uris(s)) == multiset(Uris(t')) + multiset{s[0].uri}
  {
    assert Uris(s) == [s[0].uri] + Uris(s[1..]);
  }

  lemma RemoveOne(t: seq<Track>, j: nat)
    requires j < |t|
    ensures multiset(t) == multiset(t[..j] + t[j + 1..]) + multiset{t[j]}
    ensures multiset(Uris(t)) == multiset(Uris(t[..j] + t[j + 1..])) + multiset{t[j].uri}
  {
    var front, back := t[..j], t[j + 1..];
    Around(t, j);
    SplitMultiset(front, [t[j]], back);
    UrisAround(front, t[j], back);
    SplitMultiset(Uris(front), [t[j].uri], Uris(back));
  }

  lemma UrisAround(front: seq<Track>, x: Track, back: seq<Track>)
    ensures Uris(front + [x] + back) == Uris(front) + [x.uri] + Uris(back)
    ensures Uris(front + back) == Uris(front) + Uris(back)
  {
    UrisConcat(front + [x], back);
    UrisConcat(front, [x]);
    UrisConcat(front, back);
  }

  lemma UrisConcat(a: seq<Track>, b: seq<Track>)
    ensures Uris(a + b) == Uris(a) + Uris(b)
  {
    var whole, parts := Uris(a + b), Uris(a) + Uris(b);
    forall k | 0 <= k < |whole| ensures whole[k] == parts[k] {
      if k < |a| {
        assert (a + b)[k] == a[k];
      } else {
        assert (a + b)[k] == b[k - |a|];
      }
    }
  }

  /**
   * A read that fails, or that the script cuts short, leaves the playlist as it was, and a
   * failed read makes the sort answer False.
   */
  lemma ReadFailureWritesNothing(pages: seq<Fetch.Response>, answers: seq<Commit.Status>, playlist: seq<string>)
    requires !Fetch.FetchAll(pages).Fetched?
    ensures SortPlaylist(pages, answers, playlist).playlist == playlist
    ensures Fetch.FetchAll(pages).FetchFailed? <==> SortPlaylist(pages, answers, playlist).outcome == Failed
  {
  }

  /**
   * When the read succeeds and every write is answered OK, the sort answers True and the
   * playlist holds exactly the plan, so only uris containing "spotify:track:" remain: local
   * files are not kept. An empty plan writes nothing and leaves the playlist as it was.
   */
  lemma CleanRunWritesPlan(pages: seq<Fetch.Response>, answers: seq<Commit.Status>, playlist: seq<string>)
    requires Fetch.FetchAll(pages).Fetched?
    requires Commit.AllAccepted(answers)
    requires Commit.ChunkSize * |answers| >= |Plan(Fetch.FetchAll(pages).tracks)|
    ensures var plan := Plan(Fetch.FetchAll(pages).tracks);
            SortPlaylist(pages, answers, playlist) == SortResult(Succeeded, if plan == [] then playlist else plan)
    ensures var plan := Plan(Fetch.FetchAll(pages).tracks);
            plan != [] ==>
              forall k :: 0 <= k < |plan| ==> Ranking.Contains(SortPlaylist(pages, answers, playlist).playlist[k], Ranking.TrackUriMarker)
  {
    var tracks := Fetch.FetchAll(pages).tracks;
    Commit.AllAcceptedWritesPlan(Plan(tracks), answers, playlist);
    PlanShape(tracks);
  }

  /**
   * Once the read succeeds, the sort answers False exactly when some write got an answer
   * other than OK, 400 and 429: such an answer raises, and nothing else does.
   */
  lemma FailsIffWriteRejected(pages: seq<Fetch.Response>, answers: seq<Commit.Status>, playlist: seq<string>)
    requires Fetch.FetchAll(pages).Fetched?
    ensures var run := Commit.CommitAll(Plan(Fetch.FetchAll(pages).tracks), answers, playlist);
            SortPlaylist(pages, answers, playlist).outcome == Failed <==>
              exists k :: 0 <= k < |run.calls| && !Commit.Tolerated(run.calls[k].status)
  {
    var plan := Plan(Fetch.FetchAll(pages).tracks);
    var run := Commit.CommitAll(plan, answers, playlist);
    Commit.RaiseCause(plan, 0, answers, [], playlist);
    if run.end.Raised? {
      assert !Commit.Tolerated(run.calls[|run.calls| - 1].status);
    }
    if exists k :: 0 <= k < |run.calls| && !Commit.Tolerated(run.calls[k].status) {
      var k :| 0 <= k < |run.calls| && !Commit.Tolerated(run.calls[k].status);
      Commit.UntoleratedRaises(plan, answers, playlist, k);
    }
  }

  /**
   * Whatever the answers, the playlist after the sort is the old one with the accepted
   * writes applied in order; a sort that fails part way keeps what was written before.
   */
  lemma PlaylistIsAcceptedWrites(pages: seq<Fetch.Response>, answers: seq<Commit.Status>, playlist: seq<string>)
    requires Fetch.FetchAll(pages).Fetched?
    ensures var run := Commit.CommitAll(Plan(Fetch.FetchAll(pages).tracks), answers, playlist);
            SortPlaylist(pages, answers, playlist).playlist == Commit.Replay(playlist, run.calls)
  {
    Commit.PlaylistIsReplay(Plan(Fetch.FetchAll(pages).tracks), 0, answers, [], playlist, playlist);
  }
}
