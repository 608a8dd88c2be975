# spotify-playlist-sorter, modelled in Dafny

`spotify_sorter.py` reorders one Spotify playlist. `sort_single_playlist` does the work in three stages:

1. It reads the playlist 20 items at a time. Local files become notes, and playable tracks become records.
2. It ranks the records:
   - it keeps those whose uri contains `spotify:track:`;
   - it sorts them by popularity, high to low, with a stable sort;
   - it keeps at most 500.
3. It writes the uri list back in chunks of 10. The first chunk replaces the playlist's contents and later chunks are appended. Each chunk gets up to 3 attempts:
   - a 429 answer waits and tries again;
   - a 400 answer skips the chunk;
   - any other error ends the sort.

Before the write, `apply_artist_spacing` reorders the ranked list in a greedy pass. At each step it places the most popular remaining track whose artist was not placed within the last 5 positions. When every remaining artist is that recent, it places the head of the pool. `handle_rate_limit` performs the wait after a 429.

The model keeps each piece in the form the program gives it:

- The loops are Dafny methods with loop invariants:
  - the loop of `handle_rate_limit`, whose body returns;
  - the fetch loop and its item loop;
  - the chunk loop and its retry loop;
  - the spacing loop.
- Each method is proved equal to a specification function. The properties are proved as lemmas about those functions.
- The Spotify Web API is replaced by scripts of answers:
  - a sequence of `Fetch.Response` values for the page reads;
  - a sequence of `Commit.Status` values for the replace and add calls, consumed one per call.
- A run has three possible outcomes:
  - `Succeeded` is the program's `True`;
  - `Failed` is its `False`;
  - `Unfinished` means the script ran out before the program would have stopped.

Modules, one per file:

| module | models |
|---|---|
| `Types` | the track record and the local-track note; the uri list of line 117; facts about sequences that the other modules' proofs share |
| `RateLimit` | `handle_rate_limit` |
| `Spacing` | `apply_artist_spacing` |
| `Ranking` | the filter, the stable sort and the cap |
| `Fetch` | the paged read loop and the classification of items |
| `Commit` | the chunked write loop with its retry loop |
| `Sorter` | `sort_single_playlist` as a whole |

## Model

| member | source | states |
|---|---|---|
| `RateLimit.AnnouncedDelays` | spotify_sorter.py:27-28 | The schedule the comment in the loop announces: one delay `initial_delay * 2^i` for each `i` in `range(retries)`. |
| `RateLimit.RateLimitAnswer` | spotify_sorter.py:25-32 | What a call amounts to: one wait of `initial_delay` and "resume" when `retries >= 1`, no wait and "give up" otherwise. It is the specification of the method below and the answer the read and write loops use. |
| `RateLimit.HandleRateLimit` | spotify_sorter.py:25-32 | The loop over `range(retries)`, whose body returns, followed by the final `return False`. It returns `RateLimitAnswer`, so it waits at most once, and that wait is the first announced delay. |
| `RateLimit.NoEscalation` | spotify_sorter.py:26-31 | With 2 or more retries, the waits are only the first announced delay. The doubled second delay is announced but never waited, and the answer equals the one for a single retry. |
| `RateLimit.DefaultsAlwaysResume` | spotify_sorter.py:25-32 | With the defaults (5 retries, 60 s) the answer is one 60 s wait and "resume". |
| `Spacing.LastPositions` | spotify_sorter.py:38-58 | `artist_last_position` rebuilt from the output so far: each placed artist maps to the position last written for it. |
| `Spacing.LastPositionsAppend` | spotify_sorter.py:58 | Placing a track records its artist at the old output length. |
| `Spacing.LastPositionsAreLast` | spotify_sorter.py:38-58 | The keys of `artist_last_position` are exactly the placed artists. Each key maps to a position holding that artist, and no later position holds it. |
| `Spacing.Eligible` | spotify_sorter.py:45-46 | The dictionary test: the artist has no recorded position, or its gap to the current position exceeds `min_spacing`. |
| `Spacing.EligibleIffNotRecent` | spotify_sorter.py:43-47 | The dictionary test passes exactly when no track by that artist sits within the last `min_spacing` positions of the output. |
| `Spacing.ValidTracks` | spotify_sorter.py:43-47 | The comprehension `valid_tracks`: the tracks of the pool that pass the dictionary test, in pool order. |
| `Spacing.ValidTracksAreEligible` | spotify_sorter.py:43-47 | The comprehension keeps every eligible track of the pool and nothing else. |
| `Spacing.MostPopular` | spotify_sorter.py:54 | `max(valid_tracks, key=popularity)`, which keeps the first of several equal maxima. |
| `Spacing.MostPopularIsFirstMax` | spotify_sorter.py:54 | `max` returns a track of greatest popularity, and no earlier track in the list is as popular. |
| `Spacing.IndexOf` | spotify_sorter.py:57 | The index of the first element equal to the track. |
| `Spacing.RemoveFirst` | spotify_sorter.py:57 | `list.remove` deletes exactly the first element equal to the track. |
| `Spacing.BestEligibleIsFirstMax` | spotify_sorter.py:43-54 | The index scan finds nothing exactly when no track is eligible. Otherwise it finds an eligible track as popular as every eligible track and more popular than every earlier eligible track. |
| `Spacing.Pick` | spotify_sorter.py:49-54 | The index in the pool of the track placed next; it is always an index of the pool. |
| `Spacing.PickRule` | spotify_sorter.py:49-54 | The track placed is the first eligible track of greatest popularity, or the head of the pool when no track is eligible. |
| `Spacing.MaxOfValidIsBest` | spotify_sorter.py:43-54 | `max` over the comprehension picks the same track as the index scan, and the comprehension is empty exactly when the scan finds nothing. |
| `Spacing.StepIsPick` | spotify_sorter.py:43-57 | One loop iteration places `available[k]` for the picked index `k`, and `remove` deletes index `k`. |
| `Spacing.Spaced` | spotify_sorter.py:40-58 | The while loop from a state (output so far, pool): the output grows by the pool's length and keeps what was placed as its prefix. |
| `Spacing.SpacedPermutes` | spotify_sorter.py:40-57 | From any state, the output keeps what was already placed as a prefix and continues with a permutation of the pool. |
| `Spacing.ArtistSpacing` | spotify_sorter.py:34-60 | `apply_artist_spacing` itself: the while loop from an empty output with the whole list as the pool. |
| `Spacing.ArtistSpacingPermutes` | spotify_sorter.py:34-60 | The reordering has the input's length and the same multiset of tracks. |
| `Spacing.ApplyArtistSpacing` | spotify_sorter.py:34-60 | The loop, with the pool, the output and the dictionary as its state, returns the reordering, which is a permutation of the input. |
| `Spacing.SpacedIsGreedy` | spotify_sorter.py:40-58 | At every position of the output, the greedy rule holds, stated on the output alone. |
| `Spacing.SpacingGuarantee` | spotify_sorter.py:34-60 | A track of an artist who is not recent is placed only when it is the most popular such track. A track placed within 5 positions of the same artist is placed only when every remaining artist was recent. |
| `Spacing.FixedPoint` | spotify_sorter.py:34-60 | A list with no repeated artist, already sorted by popularity descending, is returned unchanged. |
| `Ranking.Contains` | spotify_sorter.py:109 | The `in` test on strings: the part starts the string, or occurs in its tail. |
| `Ranking.ContainsIsSubstring` | spotify_sorter.py:109 | `'spotify:track:' in uri` tests for a substring at any offset. |
| `Ranking.MarkerNeedNotLead` | spotify_sorter.py:109 | A uri with the marker after other text passes the filter, although it does not start with the marker. |
| `Ranking.KeepTrackUris` | spotify_sorter.py:109 | The comprehension `valid_tracks`: the fetched tracks whose uri contains the marker, in fetch order. |
| `Ranking.KeepTrackUrisCounts` | spotify_sorter.py:109 | The filter keeps every copy of each track with a track uri and no copy of any other track. |
| `Ranking.SortByPopularity` | spotify_sorter.py:110 | `sorted(..., key=popularity, reverse=True)` as a stable insertion sort; its properties are in the next rows. |
| `Ranking.InsertKeepsOrder` | spotify_sorter.py:110 | Inserting into a non-increasing list keeps it non-increasing and adds exactly that track. |
| `Ranking.SortIsStable` | spotify_sorter.py:110 | The sort is non-increasing in popularity and is a permutation. For each popularity value, the tracks keep their input order. |
| `Ranking.StableSortIsDetermined` | spotify_sorter.py:110 | Any non-increasing arrangement that keeps every popularity group in input order equals the model's sort, so it is the list `sorted(..., reverse=True)` returns. |
| `Ranking.Take` | spotify_sorter.py:111 | `sorted_tracks[:500]`: a prefix, the whole list when it is short enough, and exactly `n` tracks otherwise. |
| `Ranking.Rank` | spotify_sorter.py:109-111 | The filter, the sort and the cap, in that order. |
| `Ranking.RankShape` | spotify_sorter.py:109-111 | The ranked list holds min(number of filtered tracks, 500) tracks. It is non-increasing in popularity, and every uri in it contains the marker. |
| `Ranking.RankKeepsTop` | spotify_sorter.py:110-111 | The cap keeps a sub-multiset of the filtered tracks and a prefix of each popularity group. Every track it drops is no more popular than any track it keeps. |
| `Types.Uris` | spotify_sorter.py:117 | The uri list has one entry per track, in the same order. |
| `Fetch.ClassifyItem` | spotify_sorter.py:74-90 | An item becomes a note exactly when its track is local, and the note carries the item's position. It becomes a track or fails exactly when it is playable: its track is not null, not local and has a uri. A track holds the item's uri, popularity, first artist's name and name, and a playable item with all of them becomes a track. |
| `Fetch.AddEntry` | spotify_sorter.py:78-90 | The appends of the item loop: a note goes to `local_tracks`, a track to `spotify_tracks`, a skipped item changes nothing, and an unreadable item fails the page. |
| `Fetch.ReadPage` | spotify_sorter.py:74-90 | The item loop over one page, in item order; a failed item makes the page fail. Its contents are stated by the lemmas below. |
| `Fetch.FetchFrom` | spotify_sorter.py:69-103 | The read loop from a state (offset, tracks, notes): a 429 asks again, any other error fails, an unreadable page fails, and the last page ends the loop. |
| `Fetch.FetchAll` | spotify_sorter.py:64-103 | The read loop from its initial state: offset 0, no tracks and no notes. |
| `Fetch.FetchPlaylist` | spotify_sorter.py:69-103 | The read loop returns exactly the outcome of the read specification for the script of answers. |
| `Fetch.ReadItems` | spotify_sorter.py:74-90 | The item loop appends the page's tracks and local notes, and it reports a failure exactly when the page cannot be read. |
| `Fetch.ReadPageStaysFailed` | spotify_sorter.py:85-89 | Once an item raises a lookup error, the whole page fails. |
| `Fetch.ReadPageSucceeds` | spotify_sorter.py:74-90 | A page is read exactly when no playable item lacks its popularity, its first artist's name or its name. |
| `Fetch.PlayableIndices` | spotify_sorter.py:75-83 | The indices of a page's playable items, in order. |
| `Fetch.ReadPageTracksSound` | spotify_sorter.py:83-90 | A readable page yields one track per playable item, in item order. Track `k` is built from the uri, popularity, first artist's name and name of the `k`-th playable item, and those indices increase. |
| `Fetch.ReadPageTracksComplete` | spotify_sorter.py:75-90 | Every playable item of a readable page contributes a track built from its own fields. Together with `ReadPageTracksSound`, each contributes exactly one, and null tracks, local files and items without a uri contribute none. |
| `Fetch.ReadPageLocalsSound` | spotify_sorter.py:74-82 | On a readable page, each local note belongs to a local item of the page and sits at that item's absolute position `offset + index`. The notes come in increasing position order. |
| `Fetch.ReadPageLocalsComplete` | spotify_sorter.py:74-82 | Every local item of a readable page has a note at its absolute position. |
| `Fetch.RateLimitIsTransparent` | spotify_sorter.py:98-102 | A 429 answer asks for the same page again with the same state, so the outcome equals that of the script without its 429 answers: nothing is lost or duplicated. |
| `Fetch.FailureHasCause` | spotify_sorter.py:98-103 | A failure by status comes from an answer in the script, and that answer is not 429. |
| `Fetch.FetchReadsEveryPage` | spotify_sorter.py:69-95 | Over readable pages at offsets 0, 20, 40, …, where all but the last have a next page, the loop collects every page's tracks and notes in page order. |
| `Fetch.LocalPositionsIncrease` | spotify_sorter.py:72-95 | When no page holds more than 20 items, the local notes come out in strictly increasing playlist position. |
| `Commit.Chunk` | spotify_sorter.py:122 | `track_uris[i:i + chunk_size]`. |
| `Commit.ChunkContents` | spotify_sorter.py:122 | A chunk holds the next `min(10, len - i)` uris from `i` on, in order. |
| `Commit.CallAt` | spotify_sorter.py:126-129 | The call an attempt at the chunk at `i` makes: the replace call when `i == 0`, the add call otherwise, with that chunk and its answer. |
| `Commit.Write` | spotify_sorter.py:126-129 | What an accepted call does to the playlist: the replace call for the chunk at 0, the add call for the others. |
| `Commit.WriteContents` | spotify_sorter.py:126-129 | After an accepted call the playlist ends with the chunk. A replace leaves nothing else; an add keeps the old contents in front. |
| `Commit.RunChunk` | spotify_sorter.py:123-142 | The retry loop of one chunk from a given attempt: OK writes and moves on, 429 waits and tries again, 400 moves on, any other status raises, and three attempts move on. |
| `Commit.RunFrom` | spotify_sorter.py:121-142 | The chunk loop from the chunk at `i` on; it stops at the first chunk whose retry loop raises. |
| `Commit.CommitAll` | spotify_sorter.py:119-142 | The chunk loop from the chunk at 0, with no calls made yet. |
| `Commit.CommitPlan` | spotify_sorter.py:117-142 | The chunk loop returns exactly the run of the write specification: the calls made, the final playlist and how the loop ended. |
| `Commit.AttemptChunk` | spotify_sorter.py:123-142 | The retry loop for one chunk returns exactly the specification's run of that chunk. |
| `Commit.Attempt` | spotify_sorter.py:125-142 | One attempt makes one call with that chunk, and it retries exactly when the answer is 429. Otherwise it ends the chunk as the specification does. |
| `Commit.ChunkRetries` | spotify_sorter.py:133-137 | Every attempt at a chunk other than the last was answered 429. |
| `Commit.ChunkEnding` | spotify_sorter.py:124-142 | A raise comes from the last answer, which is neither 400 nor 429. Moving on before the third attempt comes from an OK or a 400. A run out of answers used all of them. |
| `Commit.CallsFollowScript` | spotify_sorter.py:121-142 | The calls answer the script in order, one status each. A loop that runs out of answers has used them all. |
| `Commit.CallShape` | spotify_sorter.py:121-129 | Every call sends the chunk at a multiple of 10 below `len(track_uris)` and replaces exactly when that chunk is the first. Chunks are visited in increasing order. |
| `Commit.AtMostThreeAttempts` | spotify_sorter.py:123-137 | No chunk is sent more than 3 times: any 4 consecutive calls cover two chunks. |
| `Commit.PlaylistIsReplay` | spotify_sorter.py:121-142 | Whatever the answers, the final playlist is the start playlist with the accepted calls applied in order. |
| `Commit.RaiseCause` | spotify_sorter.py:133-142 | A loop that raises does so on its last call, whose status is neither 400 nor 429. |
| `Commit.ChunkRanOut` | spotify_sorter.py:123-137 | A chunk whose attempts run out of answers got nothing but 429 answers. |
| `Commit.CompletedTolerates` | spotify_sorter.py:124-142 | A loop that completes received only OK, 400 and 429 answers. |
| `Commit.OutOfScriptTolerates` | spotify_sorter.py:124-142 | A loop that runs out of answers received only OK, 400 and 429 answers as well. |
| `Commit.UntoleratedRaises` | spotify_sorter.py:133-142 | The converse of `RaiseCause`: once any call gets an answer other than OK, 400 and 429, the loop ends by raising. |
| `Commit.AllAcceptedWritesPlan` | spotify_sorter.py:121-132 | When every call is answered OK and there is an answer for every chunk, the loop completes and the playlist is exactly the uri list. An empty list makes no call and leaves the playlist as it was. |
| `Commit.ChunkRefused` | spotify_sorter.py:133-141 | A chunk refused with a 400 or with three 429 answers writes nothing, uses exactly those answers and moves on to the next chunk. |
| `Commit.FirstChunkRefusedKeepsOldPlaylist` | spotify_sorter.py:126-141 | For any non-empty uri list, when the first chunk gets a 400 or three 429s and every later call is answered OK, with an answer for every later chunk, the old contents are never replaced. The loop completes, and the playlist becomes the old one with the uris after the first chunk appended. |
| `Commit.LaterChunkRefusedIsSkipped` | spotify_sorter.py:121-141 | A later chunk refused with a 400 or with three 429 answers, every other call being answered OK and every other chunk having an answer, loses only that chunk. The loop still completes, and the playlist is the uri list without that chunk. |
| `Sorter.Plan` | spotify_sorter.py:109-117 | The uri list written back: rank, space out artists, take the uris. |
| `Sorter.SortPlaylist` | spotify_sorter.py:62-154 | The whole sort: a failed read answers False without writing, and after a read the answer follows how the chunk loop ended. |
| `Sorter.SortSinglePlaylist` | spotify_sorter.py:62-154 | The whole sort returns exactly the specification's answer and final playlist for the two scripts. |
| `Sorter.PlanShape` | spotify_sorter.py:109-117 | The written uri list has min(number of filtered tracks, 500) entries, each containing the marker, and is a permutation of the ranked uris. |
| `Sorter.ReadFailureWritesNothing` | spotify_sorter.py:151-154 | A read that fails or is cut short leaves the playlist unchanged. The sort answers False exactly when the read failed. |
| `Sorter.CleanRunWritesPlan` | spotify_sorter.py:117-149 | When the read succeeds and every write is answered OK, with an answer for every chunk of the plan, the sort answers True. A non-empty plan becomes exactly the playlist, so local files are gone; an empty plan leaves the playlist as it was. |
| `Sorter.FailsIffWriteRejected` | spotify_sorter.py:133-154 | After a successful read, the sort answers False exactly when some write got an answer other than OK, 400 and 429. |
| `Sorter.PlaylistIsAcceptedWrites` | spotify_sorter.py:119-154 | After a successful read, whatever the write answers, the final playlist is the old one with the accepted writes applied in order. A sort that fails partway keeps what it had already written. |

## Where the code and its description differ

The model follows the code in each case.

- **Backoff.** `handle_rate_limit` returns from inside the first iteration of its loop. Its docstring and its comment promise escalating delays of 60, 120, 240, … seconds, but the function waits once, for 60 seconds, and answers "resume" whenever `retries >= 1`. As a result:
  - the backoff never runs out;
  - the two `raise` paths after a failed backoff (lines 100-101 and 138) cannot be reached with the defaults;
  - a stream of 429 answers makes the read loop wait forever.
- **Three 429s on a write.** After three 429 answers to the same chunk, the retry loop ends without an error. That chunk is silently dropped and the sort still answers True (`Commit.LaterChunkRefusedIsSkipped`).
- **A refused first chunk.** Only the chunk at index 0 replaces the playlist. If that chunk is refused with a 400 or three 429s, the old contents stay and the later chunks are appended to them.
- **Local files.** The closing message counts local tracks as "preserved", but nothing writes them back. When the plan is not empty and its first chunk is accepted, the playlist is replaced, so the local files are gone (`Sorter.CleanRunWritesPlan` shows this when every write is accepted). A sort that answers True without replacing (an empty plan, or a refused first chunk) keeps the old contents, local files included.

## Left out

- The OAuth client set-up (lines 8-23) and `main` with its argument parsing and playlist lookup by name (lines 156-185). These are not part of the sort.
- Every `time.sleep` and `print`. Sleeps have no effect the model can observe. The delay `handle_rate_limit` would sleep is kept as a value in `Backoff.waits`.
- The Spotify Web API calls. Their answers come from scripts. The request parameters (`offset`, `limit=20`) are represented by the page offset and `Fetch.PageSize`.
- The `Unfinished` outcome comes from the model, not the program. It covers a run whose script ends before the program would stop. The real loops would keep waiting for answers, for example on an endless run of 429s.
- JSON values that are present but null.
  - A local track whose `name` is present but null gets the default name in the model; in Python its note holds `None`.
  - A playable track whose popularity, artist name or name is present but null is stored by Python; the model treats it as a missing field, so the whole sort fails.
- Exceptions other than a status error or a missing field, such as network failures. The outer handler would turn them into False as well.
- The constant `'is_local': True` entry of each local note. It never varies, so `LocalNote` keeps only the position and the name.
- The sort in the model is a stable insertion sort, not Python's Timsort. `Ranking.StableSortIsDetermined` proves every stable descending sort gives the same list.
