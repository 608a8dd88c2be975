/**
 * The paged read at the start of sort_single_playlist. Each request asks for 20 items at the
 * current offset; the responses come from a script instead of the Spotify Web API (one
 * response per request, in order). Each returned item is classified as a local file, a
 * playable track or nothing. A 429 answer waits and asks again for the same page. Any other
 * error answer, or a playable track missing a field, ends the whole sort with failure.
 */
module Fetch {
  import opened Types
  import opened RateLimit

  const PageSize := 20
  const DefaultLocalName := "Unknown Local Track"

  /**
   * The track object of one playlist item. An absent or empty "uri" is the empty string;
   * absent "popularity", artist "name" or "name" keys are None.
   */
  datatype TrackObject = TrackObject(
    isLocal: bool,
    uri: string,
    popularity: Option<int>,
    artistNames: seq<Option<string>>,
    name: Option<string>)

  /** One element of a page's "items"; a null track is None. */
  datatype Item = Item(track: Option<TrackObject>)

  /** What one request returns: a page, or an HTTP error status. */
  datatype Response = Page(items: seq<Item>, hasNext: bool) | HttpError(status: int)

  /** How the loop body treats one item. */
  datatype Entry = Skipped | Local(note: LocalNote) | Remote(track: Track) | Unreadable

  datatype FetchError = HttpStatus(code: int) | MalformedTrack

  /** The tracks and local notes a page adds, in item order. */
  datatype PageTracks = PageTracks(tracks: seq<Track>, locals: seq<LocalNote>)

  /**
   * Fetched: the last page said there is no next page. FetchFailed: an exception left the
   * loop. OutOfScript: the loop asked for more responses than the script holds.
   */
  datatype FetchOutcome =
    | Fetched(tracks: seq<Track>, locals: seq<LocalNote>)
    | FetchFailed(reason: FetchError)
    | OutOfScript

  /**
   * The branches of the loop body for the item at playlist position `position`. A key
   * lookup that fails on a playable track raises an error that no inner handler catches.
   */
  function ClassifyItem(item: Item, position: nat): (e: Entry)
    ensures e.Local? <==> item.track.Some? && item.track.value.isLocal
    ensures e.Local? ==> e.note.position == position
    ensures e.Remote? || e.Unreadable? <==> Playable(item)
    ensures e.Remote? ==> TrackOfItem(item, e.track)
    ensures Playable(item) && (exists track :: TrackOfItem(item, track)) ==> e.Remote?
  {
    match item.track
    case None => Skipped
    case Some(t) =>
      if t.isLocal then
        Local(LocalNote(position, if t.name.Some? then t.name.value else DefaultLocalName))
      else if t.uri == "" then Skipped
      else if t.popularity.None? || t.artistNames == [] || t.artistNames[0].None? || t.name.None? then
        Unreadable
      else Remote(Track(t.uri, t.popularity.value, t.artistNames[0].value, t.name.value))
  }

  /** The page state after one more item. */
  function AddEntry(read: Option<PageTracks>, e: Entry): Option<PageTracks>
  {
    match read
    case None => None
    case Some(p) =>
      match e
      case Skipped => Some(p)
      case Local(note) => Some(PageTracks(p.tracks, p.locals + [note]))
      case Remote(t) => Some(PageTracks(p.tracks + [t], p.locals))
      case Unreadable => None
  }

  /** The effect of the item loop over one page whose first item is at position `offset`. */
  function ReadPage(items: seq<Item>, offset: nat): Option<PageTracks>
    decreases |items|
  {
    if items == [] then Some(PageTracks([], []))
    else
      var n := |items| - 1;
      AddEntry(ReadPage(items[..n], offset), ClassifyItem(items[n], offset + n))
  }

  lemma ReadPageStep(items: seq<Item>, j: nat, offset: nat)
    requires j < |items|
    ensures ReadPage(items[..j + 1], offset) == AddEntry(ReadPage(items[..j], offset), ClassifyItem(items[j], offset + j))
  {
    assert items[..j + 1][..j] == items[..j];
  }

  /**
   * The fetch loop from the state (offset, tracks so far, local notes so far), answering the
   * requests from `script`.
   */
  function FetchFrom(script: seq<Response>, offset: nat, tracks: seq<Track>, locals: seq<LocalNote>): FetchOutcome
    decreases |script|
  {
    if script == [] then OutOfScript
    else
      match script[0]
      case HttpError(status) =>
        if status == RateLimitStatus && RateLimitAnswer(DefaultRetries, DefaultInitialDelay).resumed then
          FetchFrom(script[1..], offset, tracks, locals)
        else FetchFailed(HttpStatus(status))
      case Page(items, hasNext) =>
        match ReadPage(items, offset)
        case None => FetchFailed(MalformedTrack)
        case Some(p) =>
          if !hasNext then Fetched(tracks + p.tracks, locals + p.locals)
          else FetchFrom(script[1..], offset + PageSize, tracks + p.tracks, locals + p.locals)
  }

  function FetchAll(script: seq<Response>): FetchOutcome
  {
    FetchFrom(script, 0, [], [])
  }

  /** The fetch loop of sort_single_playlist, with the sleeps and messages left out. */
  method FetchPlaylist(script: seq<Response>) returns (outcome: FetchOutcome)
    ensures outcome == FetchAll(script)
  {
    var spotifyTracks: seq<Track> := [];
    var localTracks: seq<LocalNote> := [];
    var offset: nat := 0;
    var rest := script;
    while true
      invariant FetchFrom(rest, offset, spotifyTracks, localTracks) == FetchAll(script)
      decreases |rest|
    {
      if rest == [] {
        return OutOfScript;
      }
      var response := rest[0];
      rest := rest[1..];
      if response.HttpError? {
        if response.status == RateLimitStatus {
          var backoff := HandleRateLimit(DefaultRetries, DefaultInitialDelay);
          if !backoff.resumed {
            return FetchFailed(HttpStatus(RateLimitStatus));
          }
          continue;
        }
        return FetchFailed(HttpStatus(response.status));
      }
      var read;
      spotifyTracks, localTracks, read := ReadItems(response.items, offset, spotifyTracks, localTracks);
      if !read {
        return FetchFailed(MalformedTrack);
      }
      if !response.hasNext {
        return Fetched(spotifyTracks, localTracks);
      }
      offset := offset + PageSize;
    }
  }

  /**
   * The item loop over one page: appends its tracks and local notes, or reports that an item
   * could not be read.
   */
  method ReadItems(items: seq<Item>, offset: nat, tracks0: seq<Track>, locals0: seq<LocalNote>)
    returns (tracks: seq<Track>, locals: seq<LocalNote>, read: bool)
    ensures read <==> ReadPage(items, offset).Some?
    ensures read ==> tracks == tracks0 + ReadPage(items, offset).value.tracks
    ensures read ==> locals == locals0 + ReadPage(items, offset).value.locals
  {
    tracks, locals := tracks0, locals0;
    for j := 0 to |items|
      invariant ReadPage(items[..j], offset).Some?
      invariant tracks == tracks0 + ReadPage(items[..j], offset).value.tracks
      invariant locals == locals0 + ReadPage(items[..j], offset).value.locals
    {
      ReadPageStep(items, j, offset);
      match ClassifyItem(items[j], offset + j)
      case Skipped =>
      case Local(note) =>
        locals := locals + [note];
      case Remote(t) =>
        tracks := tracks + [t];
      case Unreadable =>
        ReadPageStaysFailed(items, j + 1, offset);
        return tracks, locals, false;
    }
    assert items[..|items|] == items;
    read := true;
  }

  // ---------------------------------------------------------------------------
  // One page
  // ---------------------------------------------------------------------------

  /** Once an item of a page cannot be read, the page as a whole cannot be read. */
  lemma {:induction false} ReadPageStaysFailed(items: seq<Item>, j: nat, offset: nat)
    requires j <= |items|
    requires ReadPage(items[..j], offset).None?
    ensures ReadPage(items, offset).None?
    decreases |items|
  {
    if j == |items| {
      assert items[..j] == items;
    } else {
      var n := |items| - 1;
      assert items[..n][..j] == items[..j];
      ReadPageStaysFailed(items[..n], j, offset);
    }
  }

  /** A page is read exactly when none of its items is a playable track with a missing field. */
  lemma {:induction false} ReadPageSucceeds(items: seq<Item>, offset: nat)
    ensures ReadPage(items, offset).Some? <==>
            forall j :: 0 <= j < |items| ==> !ClassifyItem(items[j], offset + j).Unreadable?
    decreases |items|
  {
    if items != [] {
      var n := |items| - 1;
      ReadPageSucceeds(items[..n], offset);
      assert forall j :: 0 <= j < n ==> items[..n][j] == items[j];
    }
  }

  ghost predicate PositionsIncrease(locals: seq<LocalNote>)
  {
    forall k, k' :: 0 <= k < k' < |locals| ==> locals[k].position < locals[k'].position
  }

  /** Local note k of a page sits at its item's absolute position and is that item's note. */
  ghost predicate NoteOfItem(items: seq<Item>, offset: nat, note: LocalNote)
  {
    offset <= note.position < offset + |items| &&
    ClassifyItem(items[note.position - offset], note.position) == Local(note)
  }

  /**
   * Each local note of a page belongs to a local item of that page, at the item's absolute
   * playlist position offset + index, and the notes come in increasing position order.
   */
  lemma {:induction false} ReadPageLocalsSound(items: seq<Item>, offset: nat)
    requires ReadPage(items, offset).Some?
    ensures var locals := ReadPage(items, offset).value.locals;
            forall k :: 0 <= k < |locals| ==> NoteOfItem(items, offset, locals[k])
    ensures PositionsIncrease(ReadPage(items, offset).value.locals)
    decreases |items|
  {
    if items != [] {
      var n := |items| - 1;
      var front := items[..n];
      var e := ClassifyItem(items[n], offset + n);
      ReadPageLocalsSound(front, offset);
      var p := ReadPage(front, offset).value;
      var locals := ReadPage(items, offset).value.locals;
      forall k | 0 <= k < |p.locals| ensures NoteOfItem(items, offset, p.locals[k]) {
        assert NoteOfItem(front, offset, p.locals[k]);
        assert front[p.locals[k].position - offset] == items[p.locals[k].position - offset];
      }
      if e.Local? {
        assert locals == p.locals + [e.note];
        assert NoteOfItem(items, offset, e.note);
        forall k | 0 <= k < |locals| ensures NoteOfItem(items, offset, locals[k]) {
          if k < |p.locals| {
            assert locals[k] == p.locals[k];
          }
        }
        forall k, k' | 0 <= k < k' < |locals| ensures locals[k].position < locals[k'].position {
          assert locals[k] == p.locals[k];
          if k' < |p.locals| {
            assert locals[k'] == p.locals[k'];
          } else {
            assert NoteOfItem(front, offset, p.locals[k]);
          }
        }
      } else {
        assert locals == p.locals;
      }
    }
  }

  /** Every local item of a page has a local note at its absolute position. */
  lemma {:induction false} ReadPageLocalsComplete(items: seq<Item>, offset: nat)
    requires ReadPage(items, offset).Some?
    ensures var locals := ReadPage(items, offset).value.locals;
            forall j :: 0 <= j < |items| && ClassifyItem(items[j], offset + j).Local? ==>
              exists k :: 0 <= k < |locals| && locals[k].position == offset + j
    decreases |items|
  {
    if items != [] {
      var n := |items| - 1;
      var front := items[..n];
      var e := ClassifyItem(items[n], offset + n);
      ReadPageLocalsComplete(front, offset);
      var p := ReadPage(front, offset).value;
      var locals := ReadPage(items, offset).value.locals;
      assert p.locals <= locals by {
        if e.Local? {
          assert locals == p.locals + [e.note];
        }
      }
      forall j | 0 <= j < |items| && ClassifyItem(items[j], offset + j).Local?
        ensures exists k :: 0 <= k < |locals| && locals[k].position == offset + j
      {
        if j == n {
          assert locals == p.locals + [e.note];
          assert locals[|p.locals|].position == offset + j;
        } else {
          assert front[j] == items[j];
          var k :| 0 <= k < |p.locals| && p.locals[k].position == offset + j;
          assert locals[k] == p.locals[k];
        }
      }
    }
  }

  /** An item the loop body stores as a track: a non-local track object with a non-empty uri. */
  predicate Playable(item: Item)
  {
    item.track.Some? && !item.track.value.isLocal && item.track.value.uri != ""
  }

  /**
   * The track record holds the item's uri, popularity, first artist's name and name, each of
   * which the item has.
   */
  ghost predicate TrackOfItem(item: Item, track: Track)
  {
    Playable(item) &&
    var t := item.track.value;
    t.uri == track.uri && t.popularity == Some(track.popularity) &&
    t.artistNames != [] && t.artistNames[0] == Some(track.artist) && t.name == Some(track.name)
  }

  /** The indices of a page's playable items, in item order. */
  function PlayableIndices(items: seq<Item>): seq<nat>
    decreases |items|
  {
    if items == [] then []
    else
      var n := |items| - 1;
      PlayableIndices(items[..n]) + (if Playable(items[n]) then [n] else [])
  }

  /**
   * The tracks of a readable page are the records of its playable items, one each, in item
   * order: track k is built from the item at PlayableIndices(items)[k], and those indices
   * increase.
   */
  lemma {:induction false} ReadPageTracksSound(items: seq<Item>, offset: nat)
    requires ReadPage(items, offset).Some?
    ensures var tracks := ReadPage(items, offset).value.tracks;
            var idx := PlayableIndices(items);
            |tracks| == |idx| &&
            forall k :: 0 <= k < |idx| ==> idx[k] < |items| && TrackOfItem(items[idx[k]], tracks[k])
    ensures var idx := PlayableIndices(items);
            forall k, k' :: 0 <= k < k' < |idx| ==> idx[k] < idx[k']
    decreases |items|
  {
    if items != [] {
      var n := |items| - 1;
      var front := items[..n];
      ReadPageTracksSound(front, offset);
      var p := ReadPage(front, offset).value;
      var tracks := ReadPage(items, offset).value.tracks;
      var idx0 := PlayableIndices(front);
      var idx := PlayableIndices(items);
      forall k | 0 <= k < |idx0| ensures idx0[k] < |items| && TrackOfItem(items[idx0[k]], p.tracks[k]) {
        assert front[idx0[k]] == items[idx0[k]];
      }
      if Playable(items[n]) {
        assert idx == idx0 + [n];
        assert tracks == p.tracks + [ClassifyItem(items[n], offset + n).track];
        forall k | 0 <= k < |idx| ensures idx[k] < |items| && TrackOfItem(items[idx[k]], tracks[k]) {
          if k < |idx0| {
            assert idx[k] == idx0[k] && tracks[k] == p.tracks[k];
          }
        }
      } else {
        assert idx == idx0 + [];
        assert tracks == p.tracks;
      }
    }
  }

  /** Every playable item of a page is listed among its playable indices. */
  lemma {:induction false} PlayableIndicesComplete(items: seq<Item>)
    ensures forall j :: 0 <= j < |items| && Playable(items[j]) ==> j in PlayableIndices(items)
    decreases |items|
  {
    if items != [] {
      var n := |items| - 1;
      var front := items[..n];
      PlayableIndicesComplete(front);
      assert PlayableIndices(front) <= PlayableIndices(items);
      forall j | 0 <= j < n && Playable(items[j]) ensures j in PlayableIndices(items) {
        assert front[j] == items[j];
      }
    }
  }

  /**
   * Every playable item of a readable page contributes a track built from its own fields;
   * together with ReadPageTracksSound, each contributes exactly one, and null tracks, local
   * files and items without a uri contribute none.
   */
  lemma ReadPageTracksComplete(items: seq<Item>, offset: nat)
    requires ReadPage(items, offset).Some?
    ensures var tracks := ReadPage(items, offset).value.tracks;
            var idx := PlayableIndices(items);
            forall j :: 0 <= j < |items| && Playable(items[j]) ==>
              exists k :: 0 <= k < |idx| && k < |tracks| && idx[k] == j && TrackOfItem(items[j], tracks[k])
  {
    ReadPageTracksSound(items, offset);
    PlayableIndicesComplete(items);
    var tracks := ReadPage(items, offset).value.tracks;
    var idx := PlayableIndices(items);
    forall j | 0 <= j < |items| && Playable(items[j])
      ensures exists k :: 0 <= k < |idx| && k < |tracks| && idx[k] == j && TrackOfItem(items[j], tracks[k])
    {
      var k :| 0 <= k < |idx| && idx[k] == j;
      assert TrackOfItem(items[idx[k]], tracks[k]);
    }
  }

  // ---------------------------------------------------------------------------
  // The whole loop
  // ---------------------------------------------------------------------------

  /** The script with every rate-limit answer taken out. */
  function WithoutRateLimits(script: seq<Response>): (rest: seq<Response>)
    ensures |rest| <= |script|
    ensures forall k :: 0 <= k < |rest| ==> rest[k] != HttpError(RateLimitStatus)
  {
    if script == [] then []
    else if script[0] == HttpError(RateLimitStatus) then WithoutRateLimits(script[1..])
    else [script[0]] + WithoutRateLimits(script[1..])
  }

  /**
   * A 429 answer only delays the loop: it asks again for the same page with the same state,
   * so the outcome is the one of the script without the 429 answers.
   */
  lemma {:induction false} RateLimitIsTransparent(script: seq<Response>, offset: nat, tracks: seq<Track>, locals: seq<LocalNote>)
    ensures FetchFrom(script, offset, tracks, locals) == FetchFrom(WithoutRateLimits(script), offset, tracks, locals)
    decreases |script|
  {
    if script != [] {
      DefaultsAlwaysResume();
      var rest := WithoutRateLimits(script[1..]);
      if script[0] == HttpError(RateLimitStatus) {
        RateLimitIsTransparent(script[1..], offset, tracks, locals);
      } else {
        assert ([script[0]] + rest)[1..] == rest;
        forall offset': nat, tracks': seq<Track>, locals': seq<LocalNote>
          ensures FetchFrom(script[1..], offset', tracks', locals') == FetchFrom(rest, offset', tracks', locals')
        {
          RateLimitIsTransparent(script[1..], offset', tracks', locals');
        }
      }
    }
  }

  /** A failure by HTTP status comes from an answer in the script other than 429. */
  lemma {:induction false} FailureHasCause(script: seq<Response>, offset: nat, tracks: seq<Track>, locals: seq<LocalNote>, code: int)
    requires FetchFrom(script, offset, tracks, locals) == FetchFailed(HttpStatus(code))
    ensures code != RateLimitStatus
    ensures HttpError(code) in script
    decreases |script|
  {
    DefaultsAlwaysResume();
    if script[0].Page? || script[0].status == RateLimitStatus {
      if script[0].Page? {
        var p := ReadPage(script[0].items, offset);
        FailureHasCause(script[1..], offset + PageSize, tracks + p.value.tracks, locals + p.value.locals, code);
      } else {
        FailureHasCause(script[1..], offset, tracks, locals, code);
      }
      assert script == [script[0]] + script[1..];
    }
  }

  /** A script of readable pages, the k-th at offset + 20k, all but the last with a next page. */
  ghost predicate CleanPages(script: seq<Response>, offset: nat)
  {
    script != [] &&
    (forall k :: 0 <= k < |script| ==>
      script[k].Page? && ReadPage(script[k].items, offset + PageSize * k).Some?) &&
    (forall k :: 0 <= k < |script| ==> (script[k].hasNext <==> k < |script| - 1))
  }

  /** The tracks of a run of pages, in page order. */
  function PagesTracks(script: seq<Response>, offset: nat): seq<Track>
    decreases |script|
  {
    if script == [] || !script[0].Page? then []
    else
      var p := ReadPage(script[0].items, offset);
      (if p.Some? then p.value.tracks else []) + PagesTracks(script[1..], offset + PageSize)
  }

  function PagesLocals(script: seq<Response>, offset: nat): seq<LocalNote>
    decreases |script|
  {
    if script == [] || !script[0].Page? then []
    else
      var p := ReadPage(script[0].items, offset);
      (if p.Some? then p.value.locals else []) + PagesLocals(script[1..], offset + PageSize)
  }

  /** Over clean pages the loop collects the tracks and local notes of every page, in order. */
  lemma {:induction false} FetchReadsEveryPage(script: seq<Response>, offset: nat, tracks: seq<Track>, locals: seq<LocalNote>)
    requires CleanPages(script, offset)
    ensures FetchFrom(script, offset, tracks, locals) ==
            Fetched(tracks + PagesTracks(script, offset), locals + PagesLocals(script, offset))
    decreases |script|
  {
    var p := ReadPage(script[0].items, offset).value;
    var rest := script[1..];
    PagesStep(script, offset);
    if |script| == 1 {
      assert PagesTracks(rest, offset + PageSize) == [] && PagesLocals(rest, offset + PageSize) == [];
      assert p.tracks + [] == p.tracks && p.locals + [] == p.locals;
    } else {
      CleanPagesTail(script, offset);
      FetchReadsEveryPage(rest, offset + PageSize, tracks + p.tracks, locals + p.locals);
      AppendAssoc(tracks, p.tracks, PagesTracks(rest, offset + PageSize));
      AppendAssoc(locals, p.locals, PagesLocals(rest, offset + PageSize));
    }
  }

  /** The first page's tracks and notes come first. */
  lemma PagesStep(script: seq<Response>, offset: nat)
    requires script != [] && script[0].Page? && ReadPage(script[0].items, offset).Some?
    ensures var p := ReadPage(script[0].items, offset).value;
            PagesTracks(script, offset) == p.tracks + PagesTracks(script[1..], offset + PageSize) &&
            PagesLocals(script, offset) == p.locals + PagesLocals(script[1..], offset + PageSize)
  {
  }

  lemma CleanPagesTail(script: seq<Response>, offset: nat)
    requires CleanPages(script, offset) && |script| > 1
    ensures CleanPages(script[1..], offset + PageSize)
  {
    var rest := script[1..];
    forall k | 0 <= k < |rest|
      ensures rest[k].Page? && ReadPage(rest[k].items, offset + PageSize + PageSize * k).Some?
    {
      assert rest[k] == script[k + 1];
      assert offset + PageSize + PageSize * k == offset + PageSize * (k + 1);
    }
    forall k | 0 <= k < |rest| ensures rest[k].hasNext <==> k < |rest| - 1 {
      assert rest[k] == script[k + 1];
    }
  }

  /** Every page holds at most 20 items, as the API's limit promises. */
  ghost predicate PagesWithinLimit(script: seq<Response>)
  {
    forall k :: 0 <= k < |script| && script[k].Page? ==> |script[k].items| <= PageSize
  }

  /**
   * When no page holds more than 20 items the local notes come out in strictly increasing
   * playlist position, so no two notes claim the same slot.
   */
  lemma {:induction false} LocalPositionsIncrease(script: seq<Response>, offset: nat, tracks: seq<Track>, locals: seq<LocalNote>)
    requires PagesWithinLimit(script)
    requires PositionsIncrease(locals)
    requires forall k :: 0 <= k < |locals| ==> locals[k].position < offset
    ensures FetchFrom(script, offset, tracks, locals).Fetched? ==>
            PositionsIncrease(FetchFrom(script, offset, tracks, locals).locals)
    decreases |script|
  {
    if script != [] {
      DefaultsAlwaysResume();
      assert PagesWithinLimit(script[1..]) by {
        forall k | 0 <= k < |script[1..]| && script[1..][k].Page? ensures |script[1..][k].items| <= PageSize {
          assert script[1..][k] == script[k + 1];
        }
      }
      if script[0].HttpError? {
        LocalPositionsIncrease(script[1..], offset, tracks, locals);
      } else if ReadPage(script[0].items, offset).Some? {
        var p := ReadPage(script[0].items, offset).value;
        ReadPageLocalsSound(script[0].items, offset);
        var locals' := locals + p.locals;
        assert PositionsIncrease(locals') by {
          forall k, k' | 0 <= k < k' < |locals'| ensures locals'[k].position < locals'[k'].position {
            if k' >= |locals| {
              assert locals'[k'] == p.locals[k' - |locals|];
              if k >= |locals| {
                assert locals'[k] == p.locals[k - |locals|];
              }
            }
          }
        }
        assert forall k :: 0 <= k < |locals'| ==> locals'[k].position < offset + PageSize by {
          forall k | 0 <= k < |locals'| ensures locals'[k].position < offset + PageSize {
            if k >= |locals| {
              assert locals'[k] == p.locals[k - |locals|];
            }
          }
        }
        LocalPositionsIncrease(script[1..], offset + PageSize, tracks + p.tracks, locals');
      }
    }
  }
}
