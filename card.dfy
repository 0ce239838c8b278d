/**
  The animation card: the `throttle` helper, the preview markup, and the
  machinery that runs a canvas animation's inline script with its frame
  requests gated on a per-canvas visibility flag, kept in three global slots
  per canvas (visible flag, pending frame id, captured animate function).
 */
module Card {
  import opened Wrappers
  import opened Text
  import Throttling
  import Catalogue

  /**
    The closure returned by `throttle(fn, delay)`. `calls` records the times of
    all calls so far (the clock is the `now` argument).
   */
  class Throttle {
    const delay: nat
    var lastCall: int
    ghost var calls: seq<int>

    /** The reference time is the time of the last call that got through, or 0. */
    ghost predicate Valid()
      reads this
    {
      lastCall == Throttling.LastFired(0, calls, delay)
    }

    constructor (delay: nat)
      ensures Valid() && this.delay == delay
      ensures lastCall == 0 && calls == []
    {
      this.delay := delay;
      lastCall := 0;
      calls := [];
    }

    /**
      A call at `now`: `fn` runs (`fired`) exactly when at least `delay` ms
      have passed since the last call that ran it, and only then does the
      reference time move. The calls that fired so far are the throttle rule
      applied to all calls, so any two of them are `delay` apart.
     */
    method Call(now: int) returns (fired: bool)
      requires Valid()
      modifies this
      ensures Valid() && calls == old(calls) + [now]
      ensures fired <==> Throttling.Accepts(old(lastCall), now, delay)
      ensures lastCall == if fired then now else old(lastCall)
      ensures Throttling.Fired(0, calls, delay) == Throttling.Fired(0, old(calls), delay) + (if fired then [now] else [])
      ensures Throttling.Spaced(0, Throttling.Fired(0, calls, delay), delay)
    {
      Throttling.FiredSnoc(0, calls, now, delay);
      Throttling.FiredSpaced(0, calls + [now], delay);
      fired := now - lastCall >= delay;
      if fired {
        lastCall := now;
      }
      calls := calls + [now];
    }
  }

  /** What the preview shows: a Westworld animation without its script blocks, any other one as written. */
  function PreviewHtml(a: Catalogue.Animation): (r: string)
    ensures a.category != Catalogue.Westworld ==> r == a.html
    ensures a.category == Catalogue.Westworld ==> r == RemoveScripts(a.html)
    ensures |r| <= |a.html|
    ensures !Contains(a.html, ScriptOpen) ==> r == a.html
  {
    RemoveScriptsShrinks(a.html);
    if a.category == Catalogue.Westworld then RemoveScripts(a.html) else a.html
  }

  /**
    What `html.match(/open([\s\S]*?)close/)` captures: the text between the
    first `open` and the first `close` after it; none when either is missing
    or the captured text is empty (an empty capture is falsy).
   */
  function BlockBody(html: string, open: string, close: string): Option<string> {
    match FirstBlock(html, open, close)
    case None => None
    case Some((i, j)) => if j == i + |open| then None else Some(html[i + |open|..j])
  }

  /** A capture is never empty and never holds the closing tag: the match is lazy. */
  lemma {:induction false} BlockBodyFree(html: string, open: string, close: string)
    requires |close| > 0
    ensures BlockBody(html, open, close).Some? ==>
      |BlockBody(html, open, close).value| > 0 && !Contains(BlockBody(html, open, close).value, close)
  {
    match FirstBlock(html, open, close)
    case None =>
    case Some((i, j)) =>
      if j > i + |open| {
        BodyFree(html, close, i + |open|, j);
      }
  }

  /** The inline script of a card's markup. */
  function ScriptBody(html: string): (r: Option<string>)
    ensures r.Some? ==> |r.value| > 0 && !Contains(r.value, ScriptClose)
  {
    BlockBodyFree(html, ScriptOpen, ScriptClose);
    BlockBody(html, ScriptOpen, ScriptClose)
  }

  /** A stretch with no occurrence of `close` starting in it holds no `close`. */
  lemma {:induction false} BodyFree(html: string, close: string, a: nat, j: nat)
    requires |close| > 0 && a <= j <= |html|
    requires forall k :: a <= k < j ==> !OccursAt(html, close, k)
    ensures !Contains(html[a..j], close)
  {
    ContainsIff(html[a..j], close);
    forall k | 0 <= k && k + |close| <= j - a
      ensures !OccursAt(html[a..j], close, k)
    {
      SliceOfSlice(html, a, j, k, k + |close|);
      assert !OccursAt(html, close, a + k);
    }
  }

  lemma {:induction false} SliceOfSlice(s: string, a: nat, b: nat, k: nat, l: nat)
    requires a <= b <= |s| && k <= l <= b - a
    ensures s[a..b][k..l] == s[a + k..a + l]
  {
    assert forall m :: 0 <= m < l - k ==> s[a..b][k..l][m] == s[a + k + m];
  }

  /** Only the first character of a tag is `<`. */
  predicate SingleOpen(tag: string) {
    |tag| > 0 && tag[0] == '<' && '<' !in tag[1..]
  }

  /**
    A tag starting with the only `<` it holds cannot occur across position
    `p` when `s[p]` is `<`: an occurrence at `k < p` would put that `<`
    inside the tag.
   */
  lemma {:induction false} NoStraddle(s: string, tag: string, k: nat, p: nat)
    requires SingleOpen(tag) && k < p < k + |tag| && p < |s| && s[p] == '<'
    ensures !OccursAt(s, tag, k)
  {
    if k + |tag| <= |s| {
      assert s[k..k + |tag|][p - k] == '<';
      assert tag[1..][p - k - 1] == tag[p - k];
    }
  }

  /** No occurrence of `tag` starts in `s[from..p]` when that stretch holds none and `tag` starts at `p`. */
  lemma {:induction false} NoEarlierTag(s: string, tag: string, from: nat, p: nat)
    requires SingleOpen(tag) && from <= p && p + |tag| <= |s| && s[p..p + |tag|] == tag
    requires !Contains(s[from..p], tag)
    ensures forall k :: from <= k < p ==> !OccursAt(s, tag, k)
  {
    assert s[p] == tag[0];
    ContainsIff(s[from..p], tag);
    forall k | from <= k < p
      ensures !OccursAt(s, tag, k)
    {
      if k + |tag| <= p {
        SliceOfSlice(s, from, p, k - from, k - from + |tag|);
        assert !OccursAt(s[from..p], tag, k - from);
      } else {
        NoStraddle(s, tag, k, p);
      }
    }
  }

  /**
    A tag with a single `<` at `p`, with none in `s[from..p]`, is the first
    one `IndexOf` finds from `from`: an earlier occurrence would lie inside
    `s[from..p]` or straddle position `p`.
   */
  lemma {:induction false} FirstTagAt(s: string, tag: string, from: nat, p: nat)
    requires SingleOpen(tag) && from <= p && p + |tag| <= |s| && s[p..p + |tag|] == tag
    requires !Contains(s[from..p], tag)
    ensures IndexOf(s, tag, from) == Some(p)
  {
    NoEarlierTag(s, tag, from, p);
    IndexOfFirst(s, tag, from, p);
  }

  /** An occurrence with none before it from `from` on is the one `IndexOf` finds. */
  lemma {:induction false} IndexOfFirst(s: string, pat: string, from: nat, p: nat)
    requires from <= p && OccursAt(s, pat, p)
    requires forall k :: from <= k < p ==> !OccursAt(s, pat, k)
    ensures IndexOf(s, pat, from) == Some(p)
  {
  }

  /** The capture, given where the first opening tag and the first closing tag after it are. */
  lemma {:induction false} BlockBodyAt(s: string, open: string, close: string, i: nat, j: nat)
    requires |close| > 0 && i + |open| < j
    requires FirstBlock(s, open, close) == Some((i, j))
    ensures BlockBody(s, open, close) == Some(s[i + |open|..j])
  {
  }

  /** The removal, given where the first opening tag and the first closing tag after it are. */
  lemma {:induction false} RemoveBlocksAt(s: string, open: string, close: string, i: nat, j: nat)
    requires |close| > 0
    requires FirstBlock(s, open, close) == Some((i, j))
    ensures RemoveBlocks(s, open, close) == s[..i] + RemoveBlocks(s[j + |close|..], open, close)
  {
  }

  /** A block at `i` of `s`, after text free of the opening tag, with a non-empty body free of the closing tag: what the capture returns and what the removal keeps. */
  lemma {:induction false} BlockAt(s: string, open: string, body: string, close: string, i: nat)
    requires SingleOpen(open) && SingleOpen(close)
    requires i + |open| + |body| + |close| <= |s|
    requires s[i..i + |open|] == open && s[i + |open|..i + |open| + |body|] == body
    requires s[i + |open| + |body|..i + |open| + |body| + |close|] == close
    requires !Contains(s[0..i], open) && !Contains(body, close)
    ensures FirstBlock(s, open, close) == Some((i, i + |open| + |body|))
  {
    var j := i + |open| + |body|;
    FirstTagAt(s, open, 0, i);
    FirstTagAt(s, close, i + |open|, j);
    FirstBlockAt(s, open, close, i, j);
  }

  /** The block found from where the first opening tag and the first closing tag after it are. */
  lemma {:induction false} FirstBlockAt(s: string, open: string, close: string, i: nat, j: nat)
    requires IndexOf(s, open, 0) == Some(i) && IndexOf(s, close, i + |open|) == Some(j)
    ensures FirstBlock(s, open, close) == Some((i, j))
  {
  }

  /** Where the tags and the body of `pre + open + body + close + post` sit. */
  lemma {:induction false} Layout(pre: string, open: string, body: string, close: string, post: string)
    ensures var s := pre + open + body + close + post;
      var a, b := |pre| + |open|, |pre| + |open| + |body|;
      |s| == b + |close| + |post| &&
      s[0..|pre|] == pre && s[|pre|..a] == open && s[a..b] == body && s[b..b + |close|] == close &&
      s[..|pre|] == pre && s[b + |close|..] == post
  {
  }

  /** A block after text free of the opening tag, with a non-empty body free of the closing tag, is what the capture returns. */
  lemma {:induction false} BlockBodyOfBlock(pre: string, open: string, body: string, close: string, post: string)
    requires SingleOpen(open) && SingleOpen(close)
    requires !Contains(pre, open) && !Contains(body, close) && |body| > 0
    ensures BlockBody(pre + open + body + close + post, open, close) == Some(body)
  {
    var s := pre + open + body + close + post;
    Layout(pre, open, body, close, post);
    BlockAt(s, open, body, close, |pre|);
    BlockBodyAt(s, open, close, |pre|, |pre| + |open| + |body|);
  }

  /** Removing blocks drops the first block and carries on behind it. */
  lemma {:induction false} RemoveBlocksOfBlock(pre: string, open: string, body: string, close: string, post: string)
    requires SingleOpen(open) && SingleOpen(close)
    requires !Contains(pre, open) && !Contains(body, close)
    ensures RemoveBlocks(pre + open + body + close + post, open, close) == pre + RemoveBlocks(post, open, close)
  {
    var s := pre + open + body + close + post;
    Layout(pre, open, body, close, post);
    BlockAt(s, open, body, close, |pre|);
    RemoveBlocksAt(s, open, close, |pre|, |pre| + |open| + |body|);
  }

  lemma ScriptTagsSingleOpen()
    ensures SingleOpen(ScriptOpen) && SingleOpen(ScriptClose)
  {
  }

  /** The script of a block that follows script-free text, with a non-empty body, is that body. */
  lemma {:induction false} ScriptBodyOfBlock(pre: string, body: string, post: string)
    requires !Contains(pre, ScriptOpen) && !Contains(body, ScriptClose) && |body| > 0
    ensures ScriptBody(pre + ScriptOpen + body + ScriptClose + post) == Some(body)
  {
    ScriptTagsSingleOpen();
    BlockBodyOfBlock(pre, ScriptOpen, body, ScriptClose, post);
  }

  /** Stripping scripts drops the first script block and carries on behind it. */
  lemma {:induction false} RemoveScriptsOfBlock(pre: string, body: string, post: string)
    requires !Contains(pre, ScriptOpen) && !Contains(body, ScriptClose)
    ensures RemoveScripts(pre + ScriptOpen + body + ScriptClose + post) == pre + RemoveScripts(post)
  {
    ScriptTagsSingleOpen();
    RemoveBlocksOfBlock(pre, ScriptOpen, body, ScriptClose, post);
  }

  /** The call the script rewrite targets. */
  const FramePattern: string := "requestAnimationFrame(animate)"

  /** The global slot names for a canvas. */
  function VisibleKey(canvasId: string): string { "__anim_visible_" + canvasId }

  function RafKey(canvasId: string): string { "__anim_raf_" + canvasId }

  /** A frame request that runs only while the canvas's flag is set, and records the frame id it gets. */
  function GuardedCall(canvasId: string): string {
    "if(window['" + VisibleKey(canvasId) + "']) { window['" + RafKey(canvasId) + "'] = " + FramePattern + "; }"
  }

  /** The canvas element id for a React id, its colons made dashes. */
  function CanvasId(reactId: string): string {
    "canvas-" + ReplaceAll(reactId, ":", "-")
  }

  /** `useId` ids such as `:r1:` have colons; the canvas id made from one has none. */
  lemma {:induction false} CanvasIdHasNoColon(reactId: string)
    ensures forall k :: 0 <= k < |CanvasId(reactId)| ==> CanvasId(reactId)[k] != ':'
  {
    ReplaceAllSingle(reactId, ':', "-");
    ReplaceCharRemoves(reactId, ':', '-');
  }

  lemma ReplaceCharRemoves(s: string, c: char, d: char)
    requires c != d
    ensures forall k :: 0 <= k < |ReplaceChar(s, c, [d])| ==> ReplaceChar(s, c, [d])[k] != c
  {
    if s != [] {
      ReplaceCharRemoves(s[1..], c, d);
    }
  }

  /** Every frame request of the script is replaced by the guarded request. */
  function RewriteScript(script: string, canvasId: string): string {
    ReplaceAll(script, FramePattern, GuardedCall(canvasId))
  }

  /**
    The script falls into pieces free of frame requests that, joined with the
    plain request, give the script back and, joined with the guarded request,
    give the rewritten script: every original request is guarded and nothing
    else changes.
   */
  lemma {:induction false} RewriteGuardsEveryRequest(script: string, canvasId: string)
    ensures var pieces := Split(script, FramePattern);
      Join(pieces, FramePattern) == script &&
      Join(pieces, GuardedCall(canvasId)) == RewriteScript(script, canvasId) &&
      forall j :: 0 <= j < |pieces| ==> !Contains(pieces[j], FramePattern)
  {
    JoinSplit(script, FramePattern);
    ReplaceAllIsSplitJoin(script, FramePattern, GuardedCall(canvasId));
    SplitPiecesAreFree(script, FramePattern);
  }

  /** An animation callback, by identity. */
  datatype Callback = Callback(fnId: nat)

  /**
    The script run under the temporary `requestAnimationFrame` wrapper.
    `requests` are the frame requests the script makes before it finishes or,
    when `threw` is set, before it throws. Every request is passed on, in
    order. When the script finishes, the original function is put back
    (`restored`) and the first request is the captured animate function. When
    it throws, the catch around the run skips both steps: the wrapper stays
    installed and nothing is captured, so the canvas never gets an animate
    function to restart.
   */
  method CaptureFirst(requests: seq<Callback>, threw: bool) returns (captured: Option<Callback>, forwarded: seq<Callback>, restored: bool)
    ensures forwarded == requests
    ensures restored <==> !threw
    ensures captured == if threw || requests == [] then None else Some(requests[0])
  {
    var first: Option<Callback> := None;
    forwarded := [];
    var i := 0;
    while i < |requests|
      invariant 0 <= i <= |requests|
      invariant forwarded == requests[..i]
      invariant first == if i == 0 then None else Some(requests[0])
    {
      if first.None? {
        first := Some(requests[i]);
      }
      forwarded := forwarded + [requests[i]];
      i := i + 1;
    }
    restored := !threw;
    captured := if threw then None else first;
  }

  /** A frame id handed out by `requestAnimationFrame`: never 0, so a recorded id is always truthy. */
  type FrameId = n: nat | n > 0 witness 1

  /** The three global slots of every mounted canvas, keyed by canvas id. */
  class CanvasRegistry {
    var visible: map<string, bool>
    var raf: map<string, Option<FrameId>>
    var fns: map<string, Callback>

    /** Flags and frame slots exist together, animate functions only for them, and a frame id is recorded only while the canvas is visible. */
    ghost predicate Valid()
      reads this
    {
      raf.Keys == visible.Keys && fns.Keys <= visible.Keys &&
      forall id :: id in raf && raf[id].Some? ==> visible[id]
    }

    constructor ()
      ensures Valid() && visible == map[] && raf == map[] && fns == map[]
    {
      visible := map[];
      raf := map[];
      fns := map[];
    }

    /** Before the script runs: the canvas is visible and has no recorded frame. */
    method Prepare(id: string)
      requires Valid()
      modifies this
      ensures Valid()
      ensures visible == old(visible)[id := true] && raf == old(raf)[id := None] && fns == old(fns)
    {
      visible := visible[id := true];
      raf := raf[id := None];
    }

    /**
      The rewritten request, run by the script or the animate loop: a frame is
      requested and its id recorded only when the flag is set; after cleanup
      the slot is gone and nothing happens.
     */
    method GuardedRequest(id: string, frame: FrameId) returns (requested: bool)
      requires Valid()
      modifies this
      ensures Valid()
      ensures requested <==> id in old(visible) && old(visible[id])
      ensures raf == if requested then old(raf)[id := Some(frame)] else old(raf)
      ensures visible == old(visible) && fns == old(fns)
    {
      requested := id in visible && visible[id];
      if requested {
        raf := raf[id := Some(frame)];
      }
    }

    /** After the script: the captured animate function, if any, is stored. */
    method StoreCaptured(id: string, captured: Option<Callback>)
      requires Valid() && id in visible
      modifies this
      ensures Valid()
      ensures fns == if captured.Some? then old(fns)[id := captured.value] else old(fns)
      ensures visible == old(visible) && raf == old(raf)
    {
      if captured.Some? {
        fns := fns[id := captured.value];
      }
    }

    /**
      The observer's report for a mounted canvas. Becoming visible restarts
      the stored animate function (`restart`) exactly when no frame is recorded
      and one was captured; becoming hidden forgets the recorded frame.
     */
    method OnIntersect(id: string, isVisible: bool) returns (restart: Option<Callback>)
      requires Valid() && id in visible
      modifies this
      ensures Valid()
      ensures visible == old(visible)[id := isVisible] && fns == old(fns)
      ensures raf == if isVisible then old(raf) else old(raf)[id := None]
      ensures restart.Some? <==> isVisible && old(raf[id]).None? && id in old(fns)
      ensures restart.Some? ==> restart.value == old(fns[id])
    {
      visible := visible[id := isVisible];
      restart := None;
      if isVisible {
        if raf[id].None? && id in fns {
          restart := Some(fns[id]);
        }
      } else {
        raf := raf[id := None];
      }
    }

    /**
      Unmount: the flag is cleared, a recorded frame is cancelled
      (`cancelled`), and the canvas's three slots are deleted; other canvases
      keep theirs.
     */
    method Cleanup(id: string) returns (cancelled: Option<FrameId>)
      requires Valid()
      modifies this
      ensures Valid()
      ensures cancelled == if id in old(raf) then old(raf[id]) else None
      ensures visible == old(visible) - {id} && raf == old(raf) - {id} && fns == old(fns) - {id}
    {
      visible := visible[id := false];
      cancelled := if id in raf then raf[id] else None;
      visible := visible - {id};
      raf := raf - {id};
      fns := fns - {id};
    }
  }
}
