/**
 * The write-back at the end of sort_single_playlist. The uri list is cut into chunks of 10;
 * the chunk at index 0 replaces the playlist's contents and every later chunk is appended.
 * Each chunk gets at most 3 attempts: a 429 answer waits and tries again, a 400 answer skips
 * the chunk, and any other error status ends the whole sort with failure. The answers of the
 * Spotify Web API come from a script of statuses, one per call, in order.
 */
module Commit {
  import opened Types
  import opened RateLimit

  const ChunkSize := 10
  const MaxAttempts := 3
  const BadRequestStatus := 400

  /** The answer to one replace or add call. */
  datatype Status = Ok | Failed(code: int)

  /** One call made: where its chunk starts, whether it replaces, what it sends, how it was answered. */
  datatype Call = Call(start: nat, replace: bool, chunk: seq<string>, status: Status)

  /**
   * Completed: every chunk was dealt with. Raised: an error status left the loop.
   * OutOfScript: the loop made more calls than the script answers.
   */
  datatype CommitEnd = Completed | Raised(code: int) | OutOfScript

  /** The calls made, the playlist as the service holds it afterwards, and how the loop ended. */
  datatype CommitRun = CommitRun(calls: seq<Call>, playlist: seq<string>, end: CommitEnd)

  datatype ChunkEnd = NextChunk | Stop(outcome: CommitEnd)

  /** The attempts at one chunk, and the answers left for the chunks after it. */
  datatype ChunkRun = ChunkRun(calls: seq<Call>, playlist: seq<string>, rest: seq<Status>, end: ChunkEnd)

  function Min(a: int, b: int): int
  {
    if a <= b then a else b
  }

  /** Python's uris[i:i + 10] for 0 <= i <= len(uris). */
  function Chunk(uris: seq<string>, i: nat): (c: seq<string>)
    requires i <= |uris|
  {
    uris[i..Min(i + ChunkSize, |uris|)]
  }

  /** A chunk holds the next (at most) 10 uris from i on, in order. */
  lemma ChunkContents(uris: seq<string>, i: nat)
    requires i <= |uris|
    ensures |Chunk(uris, i)| == Min(ChunkSize, |uris| - i)
    ensures forall k :: 0 <= k < |Chunk(uris, i)| ==> Chunk(uris, i)[k] == uris[i + k]
  {
  }

  /** What an accepted call does to the playlist: replace its contents, or append. */
  function Write(playlist: seq<string>, replace: bool, chunk: seq<string>): seq<string>
  {
    if replace then chunk else playlist + chunk
  }

  /**
   * After an accepted call the playlist ends with the chunk; a replace leaves nothing else,
   * an add keeps the old contents in front of it.
   */
  lemma WriteContents(playlist: seq<string>, replace: bool, chunk: seq<string>)
    ensures var w := Write(playlist, replace, chunk);
            |w| == (if replace then 0 else |playlist|) + |chunk| &&
            w[|w| - |chunk|..] == chunk && (!replace ==> w[..|playlist|] == playlist)
  {
  }

  /** The answers the chunk loop gets past: OK, 400 and 429. */
  predicate Tolerated(status: Status)
  {
    status == Ok || status == Failed(BadRequestStatus) || status == Failed(RateLimitStatus)
  }

  /** The call made by an attempt at the chunk at i. */
  function CallAt(uris: seq<string>, i: nat, status: Status): Call
    requires i <= |uris|
  {
    Call(i, i == 0, Chunk(uris, i), status)
  }

  /**
   * The retry loop for the chunk at i, from attempt `attempt` on, after the calls `calls`
   * have been made.
   */
  function RunChunk(uris: seq<string>, i: nat, attempt: nat, script: seq<Status>, calls: seq<Call>, playlist: seq<string>): ChunkRun
    requires i < |uris|
    decreases MaxAttempts - attempt
  {
    if attempt >= MaxAttempts then ChunkRun(calls, playlist, script, NextChunk)
    else if script == [] then ChunkRun(calls, playlist, script, Stop(OutOfScript))
    else
      var calls' := calls + [CallAt(uris, i, script[0])];
      match script[0]
      case Ok => ChunkRun(calls', Write(playlist, i == 0, Chunk(uris, i)), script[1..], NextChunk)
      case Failed(code) =>
        if code == RateLimitStatus then
          if RateLimitAnswer(DefaultRetries, DefaultInitialDelay).resumed then
            RunChunk(uris, i, attempt + 1, script[1..], calls', playlist)
          else ChunkRun(calls', playlist, script[1..], Stop(Raised(code)))
        else if code == BadRequestStatus then ChunkRun(calls', playlist, script[1..], NextChunk)
        else ChunkRun(calls', playlist, script[1..], Stop(Raised(code)))
  }

  /** The chunk loop from the chunk at i on, after the calls `calls` have been made. */
  function RunFrom(uris: seq<string>, i: nat, script: seq<Status>, calls: seq<Call>, playlist: seq<string>): CommitRun
    decreases |uris| - i
  {
    if i >= |uris| then CommitRun(calls, playlist, Completed)
    else
      var c := RunChunk(uris, i, 0, script, calls, playlist);
      if c.end.Stop? then CommitRun(c.calls, c.playlist, c.end.outcome)
      else RunFrom(uris, i + ChunkSize, c.rest, c.calls, c.playlist)
  }

  function CommitAll(uris: seq<string>, script: seq<Status>, playlist: seq<string>): CommitRun
  {
    RunFrom(uris, 0, script, [], playlist)
  }

  /**
   * The retry loop for the chunk at i: the while loop inside the chunk loop. The answers not
   * yet used are `script0`; the ones left over come back in `rest`.
   */
  method AttemptChunk(uris: seq<string>, i: nat, script0: seq<Status>, calls0: seq<Call>, playlist0: seq<string>)
    returns (calls: seq<Call>, playlist: seq<string>, rest: seq<Status>, end: ChunkEnd)
    requires i < |uris|
    ensures ChunkRun(calls, playlist, rest, end) == RunChunk(uris, i, 0, script0, calls0, playlist0)
  {
    calls, playlist, rest := calls0, playlist0, script0;
    var retryCount := 0;
    while retryCount < MaxAttempts
      invariant retryCount <= MaxAttempts
      invariant RunChunk(uris, i, retryCount, rest, calls, playlist) == RunChunk(uris, i, 0, script0, calls0, playlist0)
      decreases MaxAttempts - retryCount
    {
      if rest == [] {
        return calls, playlist, rest, Stop(OutOfScript);
      }
      var again;
      calls, playlist, again, end := Attempt(uris, i, retryCount, rest, calls, playlist);
      rest := rest[1..];
      if !again {
        return;
      }
      retryCount := retryCount + 1;
    }
    end := NextChunk;
  }

  /**
   * One attempt of the retry loop: the replace or add call answered by script[0], and
   * whether the loop tries the chunk again.
   */
  method Attempt(uris: seq<string>, i: nat, attempt: nat, script: seq<Status>, calls0: seq<Call>, playlist0: seq<string>)
    returns (calls: seq<Call>, playlist: seq<string>, again: bool, end: ChunkEnd)
    requires i < |uris| && attempt < MaxAttempts && script != []
    ensures calls == calls0 + [CallAt(uris, i, script[0])]
    ensures again <==> script[0] == Failed(RateLimitStatus)
    ensures again ==>
              RunChunk(uris, i, attempt, script, calls0, playlist0) == RunChunk(uris, i, attempt + 1, script[1..], calls, playlist)
    ensures !again ==>
              RunChunk(uris, i, attempt, script, calls0, playlist0) == ChunkRun(calls, playlist, script[1..], end)
  {
    var chunk := uris[i..Min(i + ChunkSize, |uris|)];
    var status := script[0];
    calls, playlist, again, end := calls0 + [Call(i, i == 0, chunk, status)], playlist0, false, NextChunk;
    if status.Ok? {
      if i == 0 {
        playlist := chunk;
      } else {
        playlist := playlist + chunk;
      }
    } else if status.code == RateLimitStatus {
      var backoff := HandleRateLimit(DefaultRetries, DefaultInitialDelay);
      DefaultsAlwaysResume();
      if backoff.resumed {
        again := true;
      } else {
        end := Stop(Raised(RateLimitStatus));
      }
    } else if status.code != BadRequestStatus {
      end := Stop(Raised(status.code));
    }
  }

  /** The chunk loop of sort_single_playlist, with the sleeps and messages left out. */
  method CommitPlan(uris: seq<string>, script: seq<Status>, playlist0: seq<string>) returns (run: CommitRun)
    ensures run == CommitAll(uris, script, playlist0)
  {
    var playlist := playlist0;
    var calls: seq<Call> := [];
    var rest := script;
    var i := 0;
    while i < |uris|
      invariant RunFrom(uris, i, rest, calls, playlist) == CommitAll(uris, script, playlist0)
      decreases |uris| - i
    {
      var end;
      calls, playlist, rest, end := AttemptChunk(uris, i, rest, calls, playlist);
      if end.Stop? {
        return CommitRun(calls, playlist, end.outcome);
      }
      i := i + ChunkSize;
    }
    return CommitRun(calls, playlist, Completed);
  }

  // ---------------------------------------------------------------------------
  // One chunk
  // ---------------------------------------------------------------------------

  /**
   * The attempts at a chunk answer from the front of the script, one status each, each call
   * sending that chunk; there are at most 3 of them.
   */
  lemma {:induction false} ChunkCalls(uris: seq<string>, i: nat, attempt: nat, script: seq<Status>, calls: seq<Call>, playlist: seq<string>)
    requires i < |uris| && attempt <= MaxAttempts
    ensures var c := RunChunk(uris, i, attempt, script, calls, playlist);
            var n := |c.calls| - |calls|;
            calls <= c.calls && n <= MaxAttempts - attempt && n <= |script| && c.rest == script[n..] &&
            (forall k :: |calls| <= k < |c.calls| ==> c.calls[k] == CallAt(uris, i, script[k - |calls|]))
    decreases MaxAttempts - attempt
  {
    DefaultsAlwaysResume();
    if attempt < MaxAttempts && script != [] {
      var calls' := calls + [CallAt(uris, i, script[0])];
      if script[0] == Failed(RateLimitStatus) {
        ChunkCalls(uris, i, attempt + 1, script[1..], calls', playlist);
        var c := RunChunk(uris, i, attempt, script, calls, playlist);
        var n := |c.calls| - |calls|;
        assert script[1..][n - 1..] == script[n..];
        forall k | |calls| <= k < |c.calls| ensures c.calls[k] == CallAt(uris, i, script[k - |calls|]) {
          if k > |calls| {
            assert script[1..][k - |calls'|] == script[k - |calls|];
          }
        }
      }
    }
  }

  /** Every attempt at a chunk but the last was answered 429. */
  lemma {:induction false} ChunkRetries(uris: seq<string>, i: nat, attempt: nat, script: seq<Status>, calls: seq<Call>, playlist: seq<string>)
    requires i < |uris| && attempt <= MaxAttempts
    ensures var c := RunChunk(uris, i, attempt, script, calls, playlist);
            var n := |c.calls| - |calls|;
            0 <= n <= |script| &&
            (forall k :: 0 <= k < n - 1 ==> script[k] == Failed(RateLimitStatus))
    decreases MaxAttempts - attempt
  {
    DefaultsAlwaysResume();
    ChunkCalls(uris, i, attempt, script, calls, playlist);
    if attempt < MaxAttempts && script != [] && script[0] == Failed(RateLimitStatus) {
      var calls' := calls + [CallAt(uris, i, script[0])];
      ChunkRetries(uris, i, attempt + 1, script[1..], calls', playlist);
      var c := RunChunk(uris, i, attempt, script, calls, playlist);
      var n := |c.calls| - |calls|;
      forall k | 0 <= k < n - 1 ensures script[k] == Failed(RateLimitStatus) {
        if k > 0 {
          assert script[1..][k - 1] == script[k];
        }
      }
    }
  }

  /**
   * How the attempts at a chunk end: running out of answers uses the rest of the script; a
   * raise comes from the last answer, which is neither 400 nor 429; moving on before the
   * third attempt comes from an OK or a 400, and the last answer before moving on is never
   * an error other than 400 or 429.
   */
  lemma {:induction false} ChunkEnding(uris: seq<string>, i: nat, attempt: nat, script: seq<Status>, calls: seq<Call>, playlist: seq<string>)
    requires i < |uris| && attempt <= MaxAttempts
    ensures var c := RunChunk(uris, i, attempt, script, calls, playlist);
            var n := |c.calls| - |calls|;
            0 <= n <= |script| &&
            (c.end == Stop(OutOfScript) ==> n == |script| && n < MaxAttempts - attempt) &&
            (c.end.Stop? && c.end.outcome.Raised? ==>
               n >= 1 && script[n - 1] == Failed(c.end.outcome.code) &&
               c.end.outcome.code != RateLimitStatus && c.end.outcome.code != BadRequestStatus) &&
            (c.end.Stop? ==> !c.end.outcome.Completed?) &&
            (c.end == NextChunk && n < MaxAttempts - attempt ==>
               n >= 1 && script[n - 1] in {Ok, Failed(BadRequestStatus)}) &&
            (c.end == NextChunk && n >= 1 ==>
               Tolerated(script[n - 1]))
    decreases MaxAttempts - attempt
  {
    DefaultsAlwaysResume();
    ChunkCalls(uris, i, attempt, script, calls, playlist);
    if attempt < MaxAttempts && script != [] && script[0] == Failed(RateLimitStatus) {
      var calls' := calls + [CallAt(uris, i, script[0])];
      ChunkEnding(uris, i, attempt + 1, script[1..], calls', playlist);
      var c := RunChunk(uris, i, attempt, script, calls, playlist);
      var n := |c.calls| - |calls|;
      if n >= 2 {
        assert script[1..][n - 2] == script[n - 1];
      }
    }
  }

  /** A chunk whose attempts run out of answers got nothing but 429 answers. */
  lemma {:induction false} ChunkRanOut(uris: seq<string>, i: nat, attempt: nat, script: seq<Status>, calls: seq<Call>, playlist: seq<string>)
    requires i < |uris| && attempt <= MaxAttempts
    requires RunChunk(uris, i, attempt, script, calls, playlist).end == Stop(OutOfScript)
    ensures forall k :: 0 <= k < |script| ==> script[k] == Failed(RateLimitStatus)
    decreases MaxAttempts - attempt
  {
    DefaultsAlwaysResume();
    if script != [] {
      assert script[0] == Failed(RateLimitStatus);
      ChunkRanOut(uris, i, attempt + 1, script[1..], calls + [CallAt(uris, i, script[0])], playlist);
      forall k | 0 < k < |script| ensures script[k] == Failed(RateLimitStatus) {
        assert script[1..][k - 1] == script[k];
      }
    }
  }

  // ---------------------------------------------------------------------------
  // The whole chunk loop
  // ---------------------------------------------------------------------------

  /** The calls answer the script in order, one status each; running out of answers uses them all. */
  lemma {:induction false} CallsFollowScript(uris: seq<string>, i: nat, script: seq<Status>, calls: seq<Call>, playlist: seq<string>)
    ensures var r := RunFrom(uris, i, script, calls, playlist);
            calls <= r.calls && |r.calls| - |calls| <= |script| &&
            (forall k :: |calls| <= k < |r.calls| ==> r.calls[k].status == script[k - |calls|]) &&
            (r.end == OutOfScript ==> |r.calls| - |calls| == |script|)
    decreases |uris| - i
  {
    if i < |uris| {
      var c := RunChunk(uris, i, 0, script, calls, playlist);
      ChunkCalls(uris, i, 0, script, calls, playlist);
      ChunkEnding(uris, i, 0, script, calls, playlist);
      if !c.end.Stop? {
        CallsFollowScript(uris, i + ChunkSize, c.rest, c.calls, c.playlist);
        var r := RunFrom(uris, i, script, calls, playlist);
        forall k | |calls| <= k < |r.calls| ensures r.calls[k].status == script[k - |calls|] {
          if k >= |c.calls| {
            assert c.rest[k - |c.calls|] == script[k - |calls|];
          } else {
            assert r.calls[k] == c.calls[k];
          }
        }
      }
    }
  }

  /**
   * Every call sends the chunk at a multiple of 10 below len(uris), replacing exactly when
   * that chunk is the first; the chunks are visited in increasing order.
   */
  lemma {:induction false} CallShape(uris: seq<string>, i: nat, script: seq<Status>, calls: seq<Call>, playlist: seq<string>)
    requires i % ChunkSize == 0
    ensures var r := RunFrom(uris, i, script, calls, playlist);
            calls <= r.calls &&
            forall k :: |calls| <= k < |r.calls| ==>
              i <= r.calls[k].start < |uris| && r.calls[k].start % ChunkSize == 0 &&
              r.calls[k] == CallAt(uris, r.calls[k].start, r.calls[k].status)
    ensures var r := RunFrom(uris, i, script, calls, playlist);
            forall k, k' :: |calls| <= k < k' < |r.calls| ==> r.calls[k].start <= r.calls[k'].start
    decreases |uris| - i
  {
    if i < |uris| {
      var c := RunChunk(uris, i, 0, script, calls, playlist);
      ChunkCalls(uris, i, 0, script, calls, playlist);
      if !c.end.Stop? {
        CallShape(uris, i + ChunkSize, c.rest, c.calls, c.playlist);
        var r := RunFrom(uris, i, script, calls, playlist);
        assert forall k :: |calls| <= k < |c.calls| ==> r.calls[k] == c.calls[k];
      }
    }
  }

  /** No chunk is sent more than 3 times: any 4 consecutive calls span two chunks. */
  lemma {:induction false} AtMostThreeAttempts(uris: seq<string>, i: nat, script: seq<Status>, calls: seq<Call>, playlist: seq<string>)
    requires i % ChunkSize == 0
    ensures var r := RunFrom(uris, i, script, calls, playlist);
            calls <= r.calls &&
            forall k :: |calls| <= k && k + MaxAttempts < |r.calls| ==> r.calls[k].start < r.calls[k + MaxAttempts].start
    decreases |uris| - i
  {
    if i < |uris| {
      var c := RunChunk(uris, i, 0, script, calls, playlist);
      ChunkCalls(uris, i, 0, script, calls, playlist);
      if !c.end.Stop? {
        AtMostThreeAttempts(uris, i + ChunkSize, c.rest, c.calls, c.playlist);
        CallShape(uris, i + ChunkSize, c.rest, c.calls, c.playlist);
        var r := RunFrom(uris, i, script, calls, playlist);
        forall k | |calls| <= k && k + MaxAttempts < |r.calls| ensures r.calls[k].start < r.calls[k + MaxAttempts].start {
          if k < |c.calls| {
            assert r.calls[k] == c.calls[k];
            assert k + MaxAttempts >= |c.calls|;
          }
        }
      }
    }
  }

  /** The playlist the service holds after applying the accepted calls, in order. */
  function Replay(playlist: seq<string>, calls: seq<Call>): seq<string>
    decreases |calls|
  {
    if calls == [] then playlist
    else
      var call := calls[0];
      Replay(if call.status == Ok then Write(playlist, call.replace, call.chunk) else playlist, calls[1..])
  }

  /** Replaying one more call applies it to the replayed playlist. */
  lemma {:induction false} ReplaySnoc(playlist: seq<string>, calls: seq<Call>, call: Call)
    ensures Replay(playlist, calls + [call]) ==
            var p := Replay(playlist, calls);
            if call.status == Ok then Write(p, call.replace, call.chunk) else p
    decreases |calls|
  {
    if calls != [] {
      var first := calls[0];
      var next := if first.status == Ok then Write(playlist, first.replace, first.chunk) else playlist;
      assert (calls + [call])[0] == first && (calls + [call])[1..] == calls[1..] + [call];
      ReplaySnoc(next, calls[1..], call);
    } else {
      assert Replay(playlist, [call]) == Replay(if call.status == Ok then Write(playlist, call.replace, call.chunk) else playlist, []);
    }
  }

  /**
   * The attempts at one chunk keep the playlist equal to the start playlist with the
   * accepted calls replayed in order.
   */
  lemma {:induction false} ChunkReplay(uris: seq<string>, i: nat, attempt: nat, script: seq<Status>, calls: seq<Call>, playlist: seq<string>, start: seq<string>)
    requires i < |uris| && attempt <= MaxAttempts
    requires playlist == Replay(start, calls)
    ensures var c := RunChunk(uris, i, attempt, script, calls, playlist);
            c.playlist == Replay(start, c.calls)
    decreases MaxAttempts - attempt
  {
    DefaultsAlwaysResume();
    if attempt < MaxAttempts && script != [] {
      var call := CallAt(uris, i, script[0]);
      ReplaySnoc(start, calls, call);
      if script[0] == Failed(RateLimitStatus) {
        ChunkReplay(uris, i, attempt + 1, script[1..], calls + [call], playlist, start);
      }
    }
  }

  /**
   * Whatever the answers, the playlist the loop leaves is the start playlist with the
   * accepted calls applied in order.
   */
  lemma {:induction false} PlaylistIsReplay(uris: seq<string>, i: nat, script: seq<Status>, calls: seq<Call>, playlist: seq<string>, start: seq<string>)
    requires playlist == Replay(start, calls)
    ensures var r := RunFrom(uris, i, script, calls, playlist);
            r.playlist == Replay(start, r.calls)
    decreases |uris| - i
  {
    if i < |uris| {
      var c := RunChunk(uris, i, 0, script, calls, playlist);
      ChunkReplay(uris, i, 0, script, calls, playlist, start);
      if !c.end.Stop? {
        PlaylistIsReplay(uris, i + ChunkSize, c.rest, c.calls, c.playlist, start);
      }
    }
  }

  /** The attempts at a chunk only add calls. */
  lemma {:induction false} ChunkExtends(uris: seq<string>, i: nat, attempt: nat, script: seq<Status>, calls: seq<Call>, playlist: seq<string>)
    requires i < |uris| && attempt <= MaxAttempts
    ensures calls <= RunChunk(uris, i, attempt, script, calls, playlist).calls
    decreases MaxAttempts - attempt
  {
    DefaultsAlwaysResume();
    if attempt < MaxAttempts && script != [] && script[0] == Failed(RateLimitStatus) {
      ChunkExtends(uris, i, attempt + 1, script[1..], calls + [CallAt(uris, i, script[0])], playlist);
    }
  }

  /** An attempt that raises is the last call made, and its status is neither 400 nor 429. */
  lemma {:induction false} ChunkRaise(uris: seq<string>, i: nat, attempt: nat, script: seq<Status>, calls: seq<Call>, playlist: seq<string>)
    requires i < |uris| && attempt <= MaxAttempts
    ensures var c := RunChunk(uris, i, attempt, script, calls, playlist);
            c.end.Stop? && c.end.outcome.Raised? ==>
              |calls| < |c.calls| && c.calls[|c.calls| - 1].status == Failed(c.end.outcome.code) &&
              c.end.outcome.code != RateLimitStatus && c.end.outcome.code != BadRequestStatus
    decreases MaxAttempts - attempt
  {
    DefaultsAlwaysResume();
    if attempt < MaxAttempts && script != [] && script[0] == Failed(RateLimitStatus) {
      ChunkRaise(uris, i, attempt + 1, script[1..], calls + [CallAt(uris, i, script[0])], playlist);
    }
  }

  /** A raise comes from the last call's status, which is neither 400 nor 429. */
  lemma {:induction false} RaiseCause(uris: seq<string>, i: nat, script: seq<Status>, calls: seq<Call>, playlist: seq<string>)
    ensures var r := RunFrom(uris, i, script, calls, playlist);
            r.end.Raised? ==>
              |calls| < |r.calls| && r.calls[|r.calls| - 1].status == Failed(r.end.code) &&
              r.end.code != RateLimitStatus && r.end.code != BadRequestStatus
    decreases |uris| - i
  {
    if i < |uris| {
      var c := RunChunk(uris, i, 0, script, calls, playlist);
      if !c.end.Stop? {
        ChunkExtends(uris, i, 0, script, calls, playlist);
        RaiseCause(uris, i + ChunkSize, c.rest, c.calls, c.playlist);
      } else {
        ChunkRaise(uris, i, 0, script, calls, playlist);
      }
    }
  }

  /** A loop that completes saw only OK, 400 and 429 answers. */
  lemma {:induction false} CompletedTolerates(uris: seq<string>, i: nat, script: seq<Status>, calls: seq<Call>, playlist: seq<string>)
    ensures var r := RunFrom(uris, i, script, calls, playlist);
            r.end == Completed ==>
              calls <= r.calls && forall k :: |calls| <= k < |r.calls| ==> Tolerated(r.calls[k].status)
    decreases |uris| - i
  {
    if i < |uris| {
      var c := RunChunk(uris, i, 0, script, calls, playlist);
      ChunkCalls(uris, i, 0, script, calls, playlist);
      ChunkRetries(uris, i, 0, script, calls, playlist);
      ChunkEnding(uris, i, 0, script, calls, playlist);
      if !c.end.Stop? {
        CompletedTolerates(uris, i + ChunkSize, c.rest, c.calls, c.playlist);
        var r := RunFrom(uris, i, script, calls, playlist);
        if r.end == Completed {
          forall k | |calls| <= k < |c.calls| ensures Tolerated(r.calls[k].status) {
            assert r.calls[k] == c.calls[k];
            assert c.calls[k].status == script[k - |calls|];
          }
        }
      }
    }
  }

  /** A loop that runs out of answers saw only OK, 400 and 429 answers as well. */
  lemma {:induction false} OutOfScriptTolerates(uris: seq<string>, i: nat, script: seq<Status>, calls: seq<Call>, playlist: seq<string>)
    ensures var r := RunFrom(uris, i, script, calls, playlist);
            r.end == OutOfScript ==>
              calls <= r.calls && forall k :: |calls| <= k < |r.calls| ==> Tolerated(r.calls[k].status)
    decreases |uris| - i
  {
    if i < |uris| {
      var c := RunChunk(uris, i, 0, script, calls, playlist);
      ChunkCalls(uris, i, 0, script, calls, playlist);
      var r := RunFrom(uris, i, script, calls, playlist);
      if !c.end.Stop? {
        ChunkRetries(uris, i, 0, script, calls, playlist);
        ChunkEnding(uris, i, 0, script, calls, playlist);
        OutOfScriptTolerates(uris, i + ChunkSize, c.rest, c.calls, c.playlist);
        if r.end == OutOfScript {
          forall k | |calls| <= k < |c.calls| ensures Tolerated(r.calls[k].status) {
            assert r.calls[k] == c.calls[k];
            assert c.calls[k].status == script[k - |calls|];
          }
        }
      } else if c.end == Stop(OutOfScript) {
        ChunkRanOut(uris, i, 0, script, calls, playlist);
        forall k | |calls| <= k < |r.calls| ensures Tolerated(r.calls[k].status) {
          assert c.calls[k].status == script[k - |calls|];
        }
      }
    }
  }

  /**
   * The converse of RaiseCause: once any call gets an answer other than OK, 400 or 429, the
   * loop ends by raising.
   */
  lemma UntoleratedRaises(uris: seq<string>, script: seq<Status>, playlist: seq<string>, k: nat)
    requires k < |CommitAll(uris, script, playlist).calls|
    requires !Tolerated(CommitAll(uris, script, playlist).calls[k].status)
    ensures CommitAll(uris, script, playlist).end.Raised?
  {
    CompletedTolerates(uris, 0, script, [], playlist);
    OutOfScriptTolerates(uris, 0, script, [], playlist);
  }

  // ---------------------------------------------------------------------------
  // What the playlist ends up holding
  // ---------------------------------------------------------------------------

  ghost predicate AllAccepted(script: seq<Status>)
  {
    forall k :: 0 <= k < |script| ==> script[k] == Ok
  }

  /** From a later chunk on, OK answers append the rest of the uris, one call per chunk. */
  lemma {:induction false} AppendsRest(uris: seq<string>, i: nat, script: seq<Status>, calls: seq<Call>, playlist: seq<string>)
    requires 0 < i && AllAccepted(script) && ChunkSize * |script| >= |uris| - i
    ensures var r := RunFrom(uris, i, script, calls, playlist);
            r.end == Completed && r.playlist == playlist + uris[Min(i, |uris|)..]
    decreases |uris| - i
  {
    if i >= |uris| {
      assert uris[|uris|..] == [];
    } else {
      var j := Min(i + ChunkSize, |uris|);
      var c := RunChunk(uris, i, 0, script, calls, playlist);
      assert c.playlist == playlist + uris[i..j] && c.rest == script[1..] && c.end == NextChunk;
      AppendsRest(uris, i + ChunkSize, script[1..], c.calls, c.playlist);
      assert uris[i..] == uris[i..j] + uris[j..];
    }
  }

  /**
   * When every call is answered OK (and there are enough answers), the playlist ends up
   * holding exactly the uri list, in order; an empty list makes no call and leaves the
   * playlist as it was.
   */
  lemma AllAcceptedWritesPlan(uris: seq<string>, script: seq<Status>, playlist: seq<string>)
    requires AllAccepted(script) && ChunkSize * |script| >= |uris|
    ensures CommitAll(uris, script, playlist).end == Completed
    ensures CommitAll(uris, script, playlist).playlist == if uris == [] then playlist else uris
  {
    if uris != [] {
      var j := Min(ChunkSize, |uris|);
      var c := RunChunk(uris, 0, 0, script, [], playlist);
      assert c.playlist == uris[..j] && c.rest == script[1..] && c.end == NextChunk;
      AppendsRest(uris, ChunkSize, script[1..], c.calls, c.playlist);
      assert uris == uris[..j] + uris[j..];
    }
  }

  /** The ways a chunk is refused without an error: a 400, or three 429 answers in a row. */
  predicate Refusal(answers: seq<Status>)
  {
    answers == [Failed(BadRequestStatus)] ||
    answers == [Failed(RateLimitStatus), Failed(RateLimitStatus), Failed(RateLimitStatus)]
  }

  /** A refused chunk writes nothing, uses up the refusal's answers and moves on. */
  lemma ChunkRefused(uris: seq<string>, i: nat, refusal: seq<Status>, script: seq<Status>, calls: seq<Call>, playlist: seq<string>)
    requires i < |uris| && Refusal(refusal)
    ensures var c := RunChunk(uris, i, 0, refusal + script, calls, playlist);
            c.playlist == playlist && c.rest == script && c.end == NextChunk
  {
    DefaultsAlwaysResume();
    var all := refusal + script;
    if |refusal| == 1 {
      assert all[0] == Failed(BadRequestStatus) && all[1..] == script;
    } else {
      assert all[0] == Failed(RateLimitStatus) && all[1..][0] == Failed(RateLimitStatus);
      assert all[1..][1..][0] == Failed(RateLimitStatus) && all[1..][1..][1..] == script;
    }
  }

  /**
   * When the first chunk is refused (a 400, or three 429 answers) and every later call is
   * answered OK, the first chunk is lost and the old playlist is kept with the rest of the
   * uris appended to it: the write never replaces the playlist's contents.
   */
  lemma FirstChunkRefusedKeepsOldPlaylist(uris: seq<string>, refusal: seq<Status>, script: seq<Status>, playlist: seq<string>)
    requires 0 < |uris| && Refusal(refusal)
    requires AllAccepted(script) && ChunkSize * |script| >= |uris| - ChunkSize
    ensures CommitAll(uris, refusal + script, playlist).end == Completed
    ensures CommitAll(uris, refusal + script, playlist).playlist == playlist + uris[Min(ChunkSize, |uris|)..]
  {
    var c := RunChunk(uris, 0, 0, refusal + script, [], playlist);
    ChunkRefused(uris, 0, refusal, script, [], playlist);
    AppendsRest(uris, ChunkSize, script, c.calls, c.playlist);
  }

  /** One OK answer to the chunk at i writes that chunk and moves on. */
  lemma ChunkAccepted(uris: seq<string>, i: nat, script: seq<Status>, calls: seq<Call>, playlist: seq<string>)
    requires i < |uris| && script != [] && script[0] == Ok
    ensures RunFrom(uris, i, script, calls, playlist) ==
            RunFrom(uris, i + ChunkSize, script[1..], calls + [CallAt(uris, i, Ok)], Write(playlist, i == 0, Chunk(uris, i)))
  {
  }

  /** The calls made by m chunks from i on, each accepted at its first attempt. */
  function OkCalls(uris: seq<string>, i: nat, m: nat): (calls: seq<Call>)
    requires i + ChunkSize * m <= |uris|
    ensures |calls| == m
    decreases m
  {
    if m == 0 then [] else [CallAt(uris, i, Ok)] + OkCalls(uris, i + ChunkSize, m - 1)
  }

  /** m whole chunks after the first, each answered OK, append uris[i..i + 10m]. */
  lemma {:induction false} OkChunksAppend(uris: seq<string>, i: nat, m: nat, script: seq<Status>, calls: seq<Call>, playlist: seq<string>)
    requires 0 < i && i + ChunkSize * m <= |uris| && m <= |script|
    requires forall k :: 0 <= k < m ==> script[k] == Ok
    ensures RunFrom(uris, i, script, calls, playlist) ==
            RunFrom(uris, i + ChunkSize * m, script[m..], calls + OkCalls(uris, i, m), playlist + uris[i..i + ChunkSize * m])
    decreases m
  {
    if m == 0 {
      assert calls + [] == calls && playlist + [] == playlist;
    } else {
      var j, end := i + ChunkSize, i + ChunkSize * m;
      var call := CallAt(uris, i, Ok);
      ChunkAccepted(uris, i, script, calls, playlist);
      assert Chunk(uris, i) == uris[i..j];
      OkChunksAppend(uris, j, m - 1, script[1..], calls + [call], playlist + uris[i..j]);
      DropDrop(script, m);
      AppendAssoc(calls, [call], OkCalls(uris, j, m - 1));
      AppendAssoc(playlist, uris[i..j], uris[j..end]);
      SliceJoin(uris, i, j, end);
    }
  }

  /** The first n chunks, each answered OK, replace the playlist with uris[..10n]. */
  lemma AcceptedPrefix(uris: seq<string>, n: nat, script: seq<Status>, playlist: seq<string>)
    requires 0 < n && ChunkSize * n <= |uris| && n <= |script|
    requires forall k :: 0 <= k < n ==> script[k] == Ok
    ensures CommitAll(uris, script, playlist) ==
            RunFrom(uris, ChunkSize * n, script[n..], OkCalls(uris, 0, n), uris[..ChunkSize * n])
  {
    var first := uris[..ChunkSize];
    var calls1 := [CallAt(uris, 0, Ok)];
    ChunkAccepted(uris, 0, script, [], playlist);
    assert [] + calls1 == calls1 && Write(playlist, true, Chunk(uris, 0)) == first;
    OkChunksAppend(uris, ChunkSize, n - 1, script[1..], calls1, first);
    DropDrop(script, n);
    var j := ChunkSize + ChunkSize * (n - 1);
    assert j == ChunkSize * n;
    SliceJoin(uris, 0, ChunkSize, j);
    assert uris[0..ChunkSize] == first && uris[0..j] == uris[..j];
  }

  /**
   * A later chunk refused with a 400 or with three 429 answers, every other call being
   * answered OK, loses only that chunk: the loop completes and the playlist holds the uri
   * list without it.
   */
  lemma LaterChunkRefusedIsSkipped(uris: seq<string>, i: nat, refusal: seq<Status>, script: seq<Status>, playlist: seq<string>)
    requires 0 < i < |uris| && i % ChunkSize == 0 && Refusal(refusal)
    requires AllAccepted(script) && i / ChunkSize <= |script| && ChunkSize * |script| >= |uris| - ChunkSize
    ensures var n := i / ChunkSize;
            var answers := script[..n] + refusal + script[n..];
            CommitAll(uris, answers, playlist).end == Completed &&
            CommitAll(uris, answers, playlist).playlist == uris[..i] + uris[Min(i + ChunkSize, |uris|)..]
  {
    var n := i / ChunkSize;
    var rest := script[n..];
    var answers := script[..n] + refusal + rest;
    assert ChunkSize * n == i;
    assert forall k :: 0 <= k < n ==> answers[k] == script[k];
    AcceptedPrefix(uris, n, answers, playlist);
    assert answers[n..] == refusal + rest;
    var calls := OkCalls(uris, 0, n);
    var c := RunChunk(uris, i, 0, refusal + rest, calls, uris[..i]);
    ChunkRefused(uris, i, refusal, rest, calls, uris[..i]);
    AppendsRest(uris, i + ChunkSize, rest, c.calls, uris[..i]);
  }
}
