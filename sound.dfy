/**
  The sound provider: four pools of pre-loaded audio elements, one per sound
  type, played round-robin, with hover sounds throttled to one per 100 ms.
 */
module Sound {
  import opened Wrappers
  import Throttling

  datatype SoundType = Hover | Click | Copy | Generate

  /** The order in which the provider walks the sound types. */
  const SoundTypes: seq<SoundType> := [Hover, Click, Copy, Generate]

  /** Audio elements per sound type. */
  const PoolSize: nat := 3

  /** Minimum gap between two hover sounds, in milliseconds. */
  const HoverThrottleMs: nat := 100

  function SoundUrl(t: SoundType): string {
    match t
    case Hover => "https://assets.mixkit.co/active_storage/sfx/2571/2571-preview.mp3"
    case Click => "https://assets.mixkit.co/active_storage/sfx/2568/2568-preview.mp3"
    case Copy => "https://assets.mixkit.co/active_storage/sfx/2569/2569-preview.mp3"
    case Generate => "https://assets.mixkit.co/active_storage/sfx/2573/2573-preview.mp3"
  }

  /** Where a sound type sits in `SoundTypes`. */
  function TypeIndex(t: SoundType): (k: nat)
    ensures k < |SoundTypes| && SoundTypes[k] == t
  {
    match t
    case Hover => 0
    case Click => 1
    case Copy => 2
    case Generate => 3
  }

  lemma TypeIndexOf(k: nat)
    requires k < |SoundTypes|
    ensures TypeIndex(SoundTypes[k]) == k
  {
  }

  /** The pools of the first `k` types of `SoundTypes` are full and the others empty. */
  ghost predicate LoadedBelow(pools: map<SoundType, seq<Audio>>, k: nat) {
    forall t: SoundType :: t in pools && pools[t] == if TypeIndex(t) < k then FullPool(t) else []
  }

  /** Filling the `k`-th type's pool extends the loaded prefix of `SoundTypes` by one. */
  lemma PreloadStep(before: map<SoundType, seq<Audio>>, after: map<SoundType, seq<Audio>>, k: nat)
    requires k < |SoundTypes| && LoadedBelow(before, k)
    requires after == before[SoundTypes[k] := before[SoundTypes[k]] + Copies(Audio(SoundTypes[k]), PoolSize)]
    ensures LoadedBelow(after, k + 1)
  {
    TypeIndexOf(k);
  }

  /** An audio element, created for one sound type. */
  datatype Audio = Audio(sound: SoundType)

  /** The source an element loads. */
  function Src(a: Audio): string {
    SoundUrl(a.sound)
  }

  /** `n` elements loading the same source. */
  function Copies(a: Audio, n: nat): (r: seq<Audio>)
    ensures |r| == n && forall i :: 0 <= i < n ==> r[i] == a
  {
    if n == 0 then [] else Copies(a, n - 1) + [a]
  }

  /** The pool of a sound type once pre-loaded. */
  function FullPool(t: SoundType): seq<Audio> {
    Copies(Audio(t), PoolSize)
  }

  /** The slot used after slot `i` in a pool of `len` elements. */
  function NextIndex(i: nat, len: nat): (r: nat)
    requires len > 0
    ensures r < len
    ensures i + 1 < len ==> r == i + 1
    ensures i + 1 == len ==> r == 0
  {
    (i + 1) % len
  }

  /** The slots used by `n` consecutive plays of one type, starting at slot `i`. */
  function Slots(i: nat, n: nat, len: nat): seq<nat>
    requires len > 0
    decreases n
  {
    if n == 0 then [] else [i] + Slots(NextIndex(i, len), n - 1, len)
  }

  /** The `k`-th play after slot `i` uses slot `i + k`, wrapped once. */
  lemma {:induction false} SlotsAt(i: nat, n: nat, len: nat)
    requires i < len && n <= len
    ensures |Slots(i, n, len)| == n
    ensures forall k :: 0 <= k < n ==> Slots(i, n, len)[k] == if i + k < len then i + k else i + k - len
    decreases n
  {
    if n > 0 {
      var next := NextIndex(i, len);
      SlotsAt(next, n - 1, len);
      assert Slots(i, n, len) == [i] + Slots(next, n - 1, len);
    }
  }

  /** A pool's worth of consecutive plays uses every slot exactly once. */
  lemma RoundRobinUsesEverySlot(i: nat, len: nat)
    requires i < len
    ensures |Slots(i, len, len)| == len
    ensures forall s :: 0 <= s < len ==> s in Slots(i, len, len)
    ensures forall j, k :: 0 <= j < k < len ==> Slots(i, len, len)[j] != Slots(i, len, len)[k]
  {
    SlotsAt(i, len, len);
    var slots := Slots(i, len, len);
    forall s | 0 <= s < len
      ensures s in slots
    {
      var k := if s >= i then s - i else s + len - i;
      assert slots[k] == s;
    }
  }

  class SoundManager {
    var pools: map<SoundType, seq<Audio>>
    var indices: map<SoundType, nat>
    var lastHoverTime: int
    /** The times of all hover plays requested so far, accepted or not. */
    ghost var hoverCalls: seq<int>

    /**
      Every type has a pool, empty or full, and a slot index below the pool
      size; the hover time is the last hover the throttle rule accepted.
     */
    ghost predicate Valid()
      reads this
    {
      (forall t: SoundType :: t in pools && t in indices) &&
      (forall t: SoundType :: (pools[t] == [] || pools[t] == FullPool(t)) && indices[t] < PoolSize) &&
      lastHoverTime == Throttling.LastFired(0, hoverCalls, HoverThrottleMs)
    }

    /** No pool holds an element: the state before pre-loading and after cleanup. */
    ghost predicate Unloaded()
      reads this
    {
      forall t: SoundType :: t in pools ==> pools[t] == []
    }

    constructor ()
      ensures Valid() && Unloaded()
      ensures forall t: SoundType :: indices[t] == 0
      ensures lastHoverTime == 0 && hoverCalls == []
    {
      pools := map[Hover := [], Click := [], Copy := [], Generate := []];
      indices := map[Hover := 0, Click := 0, Copy := 0, Generate := 0];
      lastHoverTime := 0;
      hoverCalls := [];
      new;
      forall t: SoundType
        ensures t in pools && t in indices
      {
        match t
        case Hover =>
        case Click =>
        case Copy =>
        case Generate =>
      }
    }

    /** Pre-loading on mount fills every pool with `PoolSize` elements loading its sound. */
    method Preload()
      requires Valid() && Unloaded()
      modifies this
      ensures Valid()
      ensures forall t: SoundType :: pools[t] == FullPool(t) && |pools[t]| == PoolSize
      ensures indices == old(indices) && lastHoverTime == old(lastHoverTime) && hoverCalls == old(hoverCalls)
    {
      var k := 0;
      assert LoadedBelow(pools, 0);
      while k < |SoundTypes|
        invariant 0 <= k <= |SoundTypes|
        invariant indices == old(indices) && lastHoverTime == old(lastHoverTime) && hoverCalls == old(hoverCalls)
        invariant LoadedBelow(pools, k)
      {
        var before := pools;
        FillPool(SoundTypes[k]);
        PreloadStep(before, pools, k);
        k := k + 1;
      }
    }

    /** The inner pre-loading loop: `PoolSize` elements of type `t` pushed onto its pool. */
    method FillPool(t: SoundType)
      requires t in pools
      modifies this
      ensures pools == old(pools)[t := old(pools[t]) + Copies(Audio(t), PoolSize)]
      ensures indices == old(indices) && lastHoverTime == old(lastHoverTime) && hoverCalls == old(hoverCalls)
    {
      var audio := Audio(t);
      assert old(pools[t]) + Copies(audio, 0) == old(pools[t]);
      var i := 0;
      while i < PoolSize
        invariant 0 <= i <= PoolSize
        invariant pools == old(pools)[t := old(pools[t]) + Copies(audio, i)]
        invariant indices == old(indices) && lastHoverTime == old(lastHoverTime) && hoverCalls == old(hoverCalls)
      {
        assert old(pools[t]) + Copies(audio, i) + [audio] == old(pools[t]) + Copies(audio, i + 1);
        pools := pools[t := pools[t] + [audio]];
        i := i + 1;
      }
    }

    /**
      A play of type `t` at time `now`. A hover within 100 ms of the last
      accepted hover is dropped; an accepted hover moves the hover time even
      when its pool is empty; an empty pool plays nothing; otherwise the
      element at the type's slot plays and the slot advances round-robin.
      `played` is the slot of the element played. Every hover request joins
      the history, and the accepted hovers are the throttle rule applied to
      the whole history, so any two of them are 100 ms apart.
     */
    method Play(t: SoundType, now: int) returns (played: Option<nat>)
      requires Valid()
      modifies this
      ensures Valid()
      ensures pools == old(pools)
      ensures t == Hover && !Throttling.Accepts(old(lastHoverTime), now, HoverThrottleMs) ==>
        played == None && indices == old(indices) && lastHoverTime == old(lastHoverTime)
      ensures t == Hover && Throttling.Accepts(old(lastHoverTime), now, HoverThrottleMs) ==> lastHoverTime == now
      ensures t != Hover ==> lastHoverTime == old(lastHoverTime)
      ensures played.Some? <==> (t != Hover || Throttling.Accepts(old(lastHoverTime), now, HoverThrottleMs)) && old(pools[t]) != []
      ensures played.Some? ==>
        played.value == old(indices[t]) && played.value < |pools[t]| &&
        indices == old(indices)[t := NextIndex(old(indices[t]), |pools[t]|)]
      ensures played.None? ==> indices == old(indices)
      ensures hoverCalls == if t == Hover then old(hoverCalls) + [now] else old(hoverCalls)
      ensures AcceptedHovers(hoverCalls) == AcceptedHovers(old(hoverCalls)) +
        (if t == Hover && Throttling.Accepts(old(lastHoverTime), now, HoverThrottleMs) then [now] else [])
      ensures Throttling.Spaced(0, AcceptedHovers(hoverCalls), HoverThrottleMs)
    {
      if t == Hover {
        Throttling.FiredSnoc(0, hoverCalls, now, HoverThrottleMs);
        Throttling.FiredSpaced(0, hoverCalls + [now], HoverThrottleMs);
        hoverCalls := hoverCalls + [now];
        if now - lastHoverTime < HoverThrottleMs {
          return None;
        }
        lastHoverTime := now;
      } else {
        Throttling.FiredSpaced(0, hoverCalls, HoverThrottleMs);
      }
      var pool := pools[t];
      if |pool| == 0 {
        return None;
      }
      var index := indices[t];
      indices := indices[t := (index + 1) % |pool|];
      played := Some(index);
    }

    /** Cleanup on unmount empties every pool; slot indices and the hover time stay. */
    method Cleanup()
      requires Valid()
      modifies this
      ensures Valid() && Unloaded()
      ensures indices == old(indices) && lastHoverTime == old(lastHoverTime) && hoverCalls == old(hoverCalls)
    {
      var k := 0;
      while k < |SoundTypes|
        invariant 0 <= k <= |SoundTypes|
        invariant Valid()
        invariant indices == old(indices) && lastHoverTime == old(lastHoverTime) && hoverCalls == old(hoverCalls)
        invariant forall t: SoundType :: TypeIndex(t) < k ==> pools[t] == []
      {
        pools := pools[SoundTypes[k] := []];
        k := k + 1;
      }
    }
  }

  /** The times at which a run of hover plays is accepted: the throttle rule from a start time of 0. */
  function AcceptedHovers(times: seq<int>): seq<int> {
    Throttling.Fired(0, times, HoverThrottleMs)
  }

  /** Accepted hover plays are at least 100 ms apart. */
  lemma AcceptedHoversSpaced(times: seq<int>)
    ensures Throttling.Spaced(0, AcceptedHovers(times), HoverThrottleMs)
  {
    Throttling.FiredSpaced(0, times, HoverThrottleMs);
  }
}
