/**
  The time-gap rule shared by the hover-sound throttle and the card's
  `throttle` helper: a call gets through when at least `gap` milliseconds
  have passed since the last call that got through, and only a call that
  gets through moves that reference time.
 */
module Throttling {

  /** Whether a call at `now` gets through, the last accepted call having been at `last`. */
  predicate Accepts(last: int, now: int, gap: nat) {
    now - last >= gap
  }

  /** The times, among the calls made at `calls`, that get through when the reference time starts at `last`. */
  function Fired(last: int, calls: seq<int>, gap: nat): seq<int>
    decreases |calls|
  {
    if calls == [] then []
    else if Accepts(last, calls[0], gap) then [calls[0]] + Fired(calls[0], calls[1..], gap)
    else Fired(last, calls[1..], gap)
  }

  /** The reference time after the calls at `calls`. */
  function LastFired(last: int, calls: seq<int>, gap: nat): int
    decreases |calls|
  {
    if calls == [] then last
    else if Accepts(last, calls[0], gap) then LastFired(calls[0], calls[1..], gap)
    else LastFired(last, calls[1..], gap)
  }

  /** Accepted times are at least `gap` after the start and at least `gap` after one another. */
  ghost predicate Spaced(last: int, times: seq<int>, gap: nat) {
    (|times| > 0 ==> times[0] - last >= gap) &&
    forall i :: 0 < i < |times| ==> times[i] - times[i - 1] >= gap
  }

  /** Any two consecutive calls that get through are at least `gap` apart. */
  lemma {:induction false} FiredSpaced(last: int, calls: seq<int>, gap: nat)
    ensures Spaced(last, Fired(last, calls, gap), gap)
    decreases |calls|
  {
    if calls != [] {
      if Accepts(last, calls[0], gap) {
        FiredSpaced(calls[0], calls[1..], gap);
        var rest := Fired(calls[0], calls[1..], gap);
        assert Fired(last, calls, gap) == [calls[0]] + rest;
      } else {
        FiredSpaced(last, calls[1..], gap);
      }
    }
  }

  /** Every call that gets through is one of the calls, and the reference time is the last of them (or the start). */
  lemma {:induction false} FiredAreCalls(last: int, calls: seq<int>, gap: nat)
    ensures forall t :: t in Fired(last, calls, gap) ==> t in calls
    ensures |Fired(last, calls, gap)| <= |calls|
    ensures LastFired(last, calls, gap) == if Fired(last, calls, gap) == [] then last else Fired(last, calls, gap)[|Fired(last, calls, gap)| - 1]
    decreases |calls|
  {
    if calls != [] {
      if Accepts(last, calls[0], gap) {
        FiredAreCalls(calls[0], calls[1..], gap);
      } else {
        FiredAreCalls(last, calls[1..], gap);
      }
    }
  }

  /** One more call extends the accepted times by that call exactly when it is accepted against the current reference time. */
  lemma {:induction false} FiredSnoc(last: int, calls: seq<int>, now: int, gap: nat)
    ensures Fired(last, calls + [now], gap) ==
      Fired(last, calls, gap) + (if Accepts(LastFired(last, calls, gap), now, gap) then [now] else [])
    ensures LastFired(last, calls + [now], gap) ==
      if Accepts(LastFired(last, calls, gap), now, gap) then now else LastFired(last, calls, gap)
    decreases |calls|
  {
    if calls == [] {
      assert calls + [now] == [now];
      assert [now][1..] == [];
    } else {
      assert (calls + [now])[0] == calls[0];
      assert (calls + [now])[1..] == calls[1..] + [now];
      if Accepts(last, calls[0], gap) {
        FiredSnoc(calls[0], calls[1..], now, gap);
      } else {
        FiredSnoc(last, calls[1..], now, gap);
      }
    }
  }
}
