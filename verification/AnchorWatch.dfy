/**
 Section 2 of AnchorWatchTask in src/anchor.cpp: walk the active chain from the tip to
 height 1, find the lowest block whose anchor left the parent's best chain, invalidate it,
 let another chain be activated, and repeat.

 The parent chain stands still during a tick, but the daemon may fail to answer any call.
 */
module AnchorWatch {
  import opened AnchorCache

  /** One run of blocks that share an anchor, named by its lowest block. */
  datatype AnchorRef = AnchorRef(block: Hash, anchor: Anchor)

  /** The circumstances of one call of CheckMainchainAnchor. */
  datatype Call = Call(rpc: Rpc, now: int, synced: bool)

  /** How the loop ended: nothing is bad, the daemon stopped answering, or the tick was abandoned. */
  datatype Outcome = Quiet | CannotJudge | Abandoned

  type Anchors = map<Hash, Anchor>

  /** The blocks from `x` down that carry an anchor, stopping at genesis or at a pre-anchor block. */
  ghost function Walk(index: Blocks, anchors: Anchors, x: Hash): seq<Hash>
    requires Tree(index) && anchors.Keys == index.Keys
    decreases if x in index then index[x].height + 1 else 0
  {
    if x !in index || index[x].height == 0 || anchors[x].hash == 0 then []
    else assert Linked(index, x); [x] + Walk(index, anchors, index[x].prev)
  }

  /** The walk stays on the chain it starts from, above genesis. */
  lemma {:induction false} WalkIsAncestry(index: Blocks, anchors: Anchors, x: Hash, i: nat)
    requires Tree(index) && anchors.Keys == index.Keys
    requires i < |Walk(index, anchors, x)|
    ensures var y := Walk(index, anchors, x)[i];
            && y in index && index[y].height > 0 && x in index && index[y].height <= index[x].height
            && BlockAt(index, x, index[y].height) == y
    decreases i
  {
    if i > 0 {
      assert Linked(index, x);
      WalkIsAncestry(index, anchors, index[x].prev, i - 1);
    }
  }

  /**
   `y` lies on the chain that ends in `tip`, above genesis, and the blocks from there up to the tip
   all carry an anchor.
   */
  ghost predicate Watched(index: Blocks, anchors: Anchors, tip: Hash, y: Hash)
    requires Tree(index)
  {
    && tip in index && y in index && 0 < index[y].height <= index[tip].height
    && BlockAt(index, tip, index[y].height) == y
    && forall h :: index[y].height <= h <= index[tip].height ==>
         BlockAt(index, tip, h) in anchors && anchors[BlockAt(index, tip, h)].hash != 0
  }

  /** The walk visits exactly the watched blocks, each one height below the one before. */
  lemma {:induction false} WalkIsComplete(index: Blocks, anchors: Anchors, x: Hash)
    requires Tree(index) && anchors.Keys == index.Keys && x in index
    ensures forall y :: y in Walk(index, anchors, x) <==> Watched(index, anchors, x, y)
    ensures forall i :: 0 <= i < |Walk(index, anchors, x)| ==>
              Walk(index, anchors, x)[i] in index && index[Walk(index, anchors, x)[i]].height == index[x].height - i
    decreases index[x].height
  {
    assert BlockAt(index, x, index[x].height) == x;
    if index[x].height > 0 && anchors[x].hash != 0 {
      assert Linked(index, x);
      var p := index[x].prev;
      WalkIsComplete(index, anchors, p);
      forall y ensures y in Walk(index, anchors, x) <==> Watched(index, anchors, x, y) {
        WatchedNext(index, anchors, x, y);
      }
    } else {
      forall y ensures !Watched(index, anchors, x, y) {
      }
    }
  }

  lemma WatchedNext(index: Blocks, anchors: Anchors, x: Hash, y: Hash)
    requires Tree(index) && anchors.Keys == index.Keys && x in index && index[x].height > 0 && anchors[x].hash != 0
    ensures Watched(index, anchors, x, y) <==> y == x || Watched(index, anchors, index[x].prev, y)
  {
    assert Linked(index, x);
    var p := index[x].prev;
    assert forall h: nat :: h < index[x].height ==> BlockAt(index, x, h) == BlockAt(index, p, h);
    assert BlockAt(index, x, index[x].height) == x;
  }

  ghost predicate BadAnchor(blocks: Blocks, best: Hash, anchors: Anchors, x: Hash)
    requires Tree(blocks)
  {
    x in anchors && !Canonical(blocks, best, anchors[x])
  }

  /** The last block of a walk, that is the lowest, whose anchor is off the best chain; 0 if there is none. */
  ghost function LastBad(blocks: Blocks, best: Hash, anchors: Anchors, walk: seq<Hash>): Hash
    requires Tree(blocks)
  {
    if walk == [] then 0
    else if BadAnchor(blocks, best, anchors, walk[|walk| - 1]) then walk[|walk| - 1]
    else LastBad(blocks, best, anchors, walk[..|walk| - 1])
  }

  lemma {:induction false} LastBadFacts(blocks: Blocks, best: Hash, anchors: Anchors, walk: seq<Hash>)
    requires Tree(blocks) && 0 !in walk
    ensures var bad := LastBad(blocks, best, anchors, walk);
            if bad == 0 then forall x :: x in walk ==> !BadAnchor(blocks, best, anchors, x)
            else exists i :: && 0 <= i < |walk| && walk[i] == bad && BadAnchor(blocks, best, anchors, bad)
                             && forall j :: i < j < |walk| ==> !BadAnchor(blocks, best, anchors, walk[j])
  {
    if walk != [] && !BadAnchor(blocks, best, anchors, walk[|walk| - 1]) {
      LastBadFacts(blocks, best, anchors, walk[..|walk| - 1]);
    }
  }

  /** No watched block is bad, or `bad` is the lowest watched one that is. */
  ghost predicate IsLowestBad(blocks: Blocks, best: Hash, index: Blocks, anchors: Anchors, tip: Hash, bad: Hash)
    requires Tree(blocks) && Tree(index) && anchors.Keys == index.Keys
  {
    if bad == 0 then forall y :: Watched(index, anchors, tip, y) ==> Canonical(blocks, best, anchors[y])
    else && Watched(index, anchors, tip, bad) && !Canonical(blocks, best, anchors[bad])
         && forall y :: Watched(index, anchors, tip, y) && index[y].height < index[bad].height ==>
              Canonical(blocks, best, anchors[y])
  }

  lemma LastIsLowest(blocks: Blocks, best: Hash, index: Blocks, anchors: Anchors, tip: Hash)
    requires Tree(blocks) && Tree(index) && anchors.Keys == index.Keys && tip in index
    ensures IsLowestBad(blocks, best, index, anchors, tip, LastBad(blocks, best, anchors, Walk(index, anchors, tip)))
  {
    var walk := Walk(index, anchors, tip);
    WalkIsComplete(index, anchors, tip);
    WalkHasNoNull(index, anchors, tip);
    LastBadFacts(blocks, best, anchors, walk);
    hide Walk, LastBad, Canonical, Watched, Tree;
    var bad := LastBad(blocks, best, anchors, walk);
    if bad != 0 {
      var i :| && 0 <= i < |walk| && walk[i] == bad && BadAnchor(blocks, best, anchors, bad)
               && forall j :: i < j < |walk| ==> !BadAnchor(blocks, best, anchors, walk[j]);
      forall y | Watched(index, anchors, tip, y) && index[y].height < index[bad].height
        ensures Canonical(blocks, best, anchors[y])
      {
        var j :| 0 <= j < |walk| && walk[j] == y;
        assert index[walk[j]].height == index[tip].height - j;
      }
    }
  }

  lemma NothingIsBad(blocks: Blocks, best: Hash, anchors: Anchors, walk: seq<Hash>)
    requires Tree(blocks)
    ensures LastBad(blocks, best, anchors, walk[..0]) == 0
  {
  }

  /** Blocks whose anchors are all canonical add nothing. */
  lemma {:induction false} LastBadExtend(blocks: Blocks, best: Hash, anchors: Anchors, walk: seq<Hash>, i: nat, j: nat)
    requires Tree(blocks) && i <= j <= |walk|
    requires forall k :: i <= k < j ==> !BadAnchor(blocks, best, anchors, walk[k])
    ensures LastBad(blocks, best, anchors, walk[..j]) == LastBad(blocks, best, anchors, walk[..i])
    decreases j
  {
    if i < j {
      assert walk[..j][..j - 1] == walk[..j - 1];
      LastBadExtend(blocks, best, anchors, walk, i, j - 1);
    }
  }

  /** The blocks of the walk from number `from` up to `to` share an anchor; the last of them names the run. */
  ghost predicate IsRunOf(anchors: Anchors, walk: seq<Hash>, from: nat, to: nat, r: AnchorRef) {
    && from < to <= |walk| && r.block == walk[to - 1]
    && forall j :: from <= j < to ==> walk[j] in anchors && anchors[walk[j]] == r.anchor
  }

  /** The runs are consecutive, run k ending before block number ends[k]. */
  ghost predicate Covers(anchors: Anchors, walk: seq<Hash>, refs: seq<AnchorRef>, ends: seq<nat>) {
    && |refs| == |ends|
    && forall k :: 0 <= k < |ends| ==> IsRunOf(anchors, walk, Start(ends, k), ends[k], refs[k])
  }

  lemma CoversNothing(anchors: Anchors, walk: seq<Hash>)
    ensures Covers(anchors, walk, [], [])
  {
  }

  /** The next block of the walk joins the last run if it has the same anchor, or starts a new one. */
  lemma CoversMore(anchors: Anchors, walk: seq<Hash>, refs: seq<AnchorRef>, ends: seq<nat>, n: nat)
    requires Covers(anchors, walk, refs, ends)
    requires Start(ends, |ends|) == n < |walk| && walk[n] in anchors
    ensures var r, last := AnchorRef(walk[n], anchors[walk[n]]), |refs| - 1;
            if refs != [] && refs[last].anchor == r.anchor then Covers(anchors, walk, refs[last := r], ends[last := n + 1])
            else Covers(anchors, walk, refs + [r], ends + [n + 1])
  {
    hide IsRunOf;
    var r, last := AnchorRef(walk[n], anchors[walk[n]]), |refs| - 1;
    if refs != [] && refs[last].anchor == r.anchor {
      assert IsRunOf(anchors, walk, Start(ends, last), ends[last], refs[last]);
      RunGrows(anchors, walk, Start(ends, last), n, refs[last]);
    } else {
      RunStarts(anchors, walk, n);
    }
  }

  lemma RunGrows(anchors: Anchors, walk: seq<Hash>, from: nat, n: nat, r: AnchorRef)
    requires IsRunOf(anchors, walk, from, n, r) && n < |walk|
    requires walk[n] in anchors && anchors[walk[n]] == r.anchor
    ensures IsRunOf(anchors, walk, from, n + 1, AnchorRef(walk[n], r.anchor))
  {
  }

  lemma RunStarts(anchors: Anchors, walk: seq<Hash>, n: nat)
    requires n < |walk| && walk[n] in anchors
    ensures IsRunOf(anchors, walk, n, n + 1, AnchorRef(walk[n], anchors[walk[n]]))
  {
  }

  ghost function Start(ends: seq<nat>, k: nat): nat
    requires k <= |ends|
  {
    if k == 0 then 0 else ends[k - 1]
  }

  const BATCH := 256

  /** A verdict is cached, or the cache of good ones is full. */
  ghost predicate Settled(c: Caches, a: Anchor) {
    a in c.ok || a in c.stale || |c.ok| >= ANCHOR_OK_CACHE_MAX
  }

  lemma SettledStays(c: Caches, d: Caches, a: Anchor)
    requires c.ok <= d.ok && c.stale <= d.stale && Settled(c, a)
    ensures Settled(d, a)
  {
    assert d.ok == c.ok + (d.ok - c.ok);
  }

  /** The anchors among the first `n` that no verdict is cached for. */
  ghost function Wanted(c: Caches, refs: seq<AnchorRef>, n: nat): seq<Anchor>
    requires n <= |refs|
  {
    if n == 0 then [] else
    var a := refs[n - 1].anchor;
    Wanted(c, refs, n - 1) + if a in c.ok || a in c.stale then [] else [a]
  }

  lemma {:induction false} WantedOrKnown(c: Caches, refs: seq<AnchorRef>, n: nat, k: nat)
    requires k < n <= |refs|
    ensures var a := refs[k].anchor; a in c.ok || a in c.stale || a in Wanted(c, refs, n)
  {
    if k < n - 1 {
      WantedOrKnown(c, refs, n - 1, k);
    }
  }

  /** Remembering a verdict on an honest reply keeps the caches true; a header settles the anchor. */
  lemma RememberIsTrue(blocks: Blocks, best: Hash, c: Caches, a: Anchor, reply: Reply)
    requires Tree(blocks) && best in blocks && Honest(blocks, best, a.hash, Answer(reply)) && TrueOf(c, blocks, best)
    ensures var d := Remember(c, a, InterpretAnchorHeaderReply(reply, a.height));
            && TrueOf(d, blocks, best) && c.ok <= d.ok && c.stale <= d.stale && d.unknown == c.unknown
            && (reply.HeaderReply? ==> Settled(d, a))
  {
    InterpretIsTruthful(blocks, best, a, reply);
    hide Canonical, Honest, Tree;
  }

  /** A call that says nothing about the anchor. */
  ghost predicate Silent(call: Call, a: Anchor) {
    call.rpc.Unreachable? ||
    var v := InterpretAnchorHeaderReply(call.rpc.reply, a.height);
    v.NO_CONNECTION? || (v.NOT_FOUND? && !call.synced)
  }

  lemma RunAt(anchors: Anchors, walk: seq<Hash>, refs: seq<AnchorRef>, ends: seq<nat>, k: nat)
    requires Covers(anchors, walk, refs, ends) && k < |refs|
    ensures Start(ends, k) < |walk| && walk[Start(ends, k)] in anchors
    ensures anchors[walk[Start(ends, k)]] == refs[k].anchor
  {
  }

  class Watcher {
    const blocks: Blocks                    // the parent's block tree ...
    const best: Hash                        // ... and its best tip
    const daemon: (nat, Anchor) -> Call     // what call number n about an anchor meets
    const state: AnchorState
    const index: Blocks                     // the Sequentia block index
    const anchors: Anchors
    const stops: nat -> bool                // whether the tick is given up at point number n
    var calls: nat
    var polls: nat
    var failed: set<Hash>
    var tip: Hash
    var invalidated: set<Hash>

    /** The daemon is honest, and our own blocks are in order. */
    ghost predicate Ready()
      reads this
    {
      && Tree(blocks) && best in blocks
      && (forall n: nat, a: Anchor :: Honest(blocks, best, a.hash, daemon(n, a).rpc))
      && Tree(index) && anchors.Keys == index.Keys
      && tip in index && tip !in failed
      && DescendantsFail(index, failed)
    }

    ghost predicate Valid()
      reads this, state
    {
      Ready() && TrueOf(state.State(), blocks, best)
    }

    /** Some call says nothing. */
    ghost predicate Fails() {
      exists n: nat, a: Anchor :: Silent(daemon(n, a), a)
    }

    /** The tick is given up somewhere: a shutdown is requested, or a block cannot be invalidated. */
    ghost predicate Stops() {
      exists n: nat :: stops(n)
    }

    constructor (blocks: Blocks, best: Hash, daemon: (nat, Anchor) -> Call, state: AnchorState,
                 index: Blocks, anchors: Anchors, failed: set<Hash>, tip: Hash, stops: nat -> bool)
      ensures this.blocks == blocks && this.best == best && this.daemon == daemon && this.state == state
      ensures this.index == index && this.anchors == anchors && this.failed == failed && this.tip == tip
      ensures this.stops == stops && calls == 0 && polls == 0 && invalidated == {}
    {
      this.blocks, this.best, this.daemon, this.state := blocks, best, daemon, state;
      this.index, this.anchors, this.failed, this.tip, this.stops := index, anchors, failed, tip, stops;
      calls, polls, invalidated := 0, 0, {};
    }

    /** Whether the tick is given up here. */
    method Poll() returns (stop: bool)
      modifies this`polls
      ensures stop ==> Stops()
    {
      stop := stops(polls);
      polls := polls + 1;
    }

    /** Phase 1: one entry per run of blocks that share an anchor, top-down. */
    method Snapshot() returns (refs: seq<AnchorRef>, ghost ends: seq<nat>)
      requires Valid()
      ensures Covers(anchors, Walk(index, anchors, tip), refs, ends)
      ensures Start(ends, |ends|) == |Walk(index, anchors, tip)|
    {
      hide Covers;
      ghost var walk := Walk(index, anchors, tip);
      ghost var n := 0;
      refs, ends := [], [];
      CoversNothing(anchors, walk);
      var pindex := tip;
      while pindex in index && index[pindex].height > 0
        invariant n <= |walk| && walk[n..] == Walk(index, anchors, pindex)
        invariant |refs| == |ends| && Covers(anchors, walk, refs, ends) && Start(ends, |ends|) == n
        decreases |walk| - n
      {
        if anchors[pindex].hash == 0 {
          break;
        }
        assert Linked(index, pindex);
        assert walk[n] == walk[n..][0] == pindex && walk[n + 1..] == walk[n..][1..];
        CoversMore(anchors, walk, refs, ends, n);
        if refs != [] && refs[|refs| - 1].anchor == anchors[pindex] {
          refs := refs[|refs| - 1 := AnchorRef(pindex, anchors[pindex])];
          ends := ends[|ends| - 1 := n + 1];
        } else {
          refs, ends := refs + [AnchorRef(pindex, anchors[pindex])], ends + [n + 1];
        }
        n := n + 1;
        pindex := index[pindex].prev;
      }
    }

    /** Every call is answered with a header. */
    ghost predicate Talks() {
      forall n: nat, a: Anchor :: daemon(n, a).rpc.Answer? && daemon(n, a).rpc.reply.HeaderReply?
    }

    /** The caches only gained verdicts. */
    twostate predicate Gained()
      reads state
    {
      && old(state.okCache) <= state.okCache && old(state.staleCache) <= state.staleCache
      && state.unknown == old(state.unknown) && state.lastTip == old(state.lastTip)
    }

    /**
     Ask about many anchors, a batch at a time; whatever fails, the caches only gain true verdicts,
     and a daemon that answers decides every anchor, unless the cache is full.
     */
    method Prefetch(refs: seq<AnchorRef>)
      requires Valid()
      modifies state, this`calls, this`polls
      ensures Valid() && Gained()
      ensures Talks() && !Stops() && |Wanted(old(state.State()), refs, |refs|)| >= 2 ==>
        forall k :: 0 <= k < |refs| ==> Settled(state.State(), refs[k].anchor)
    {
      var want := [];
      for i := 0 to |refs|
        invariant want == Wanted(state.State(), refs, i)
      {
        if refs[i].anchor !in state.okCache && refs[i].anchor !in state.staleCache {
          want := want + [refs[i].anchor];
        }
      }
      if |want| < 2 {
        return;
      }
      ghost var before := state.State();
      var i := 0;
      while i < |want|
        invariant 0 <= i <= |want| && Valid() && Gained()
        invariant Talks() ==> forall j :: 0 <= j < i ==> Settled(state.State(), want[j])
        decreases |want| - i
      {
        var stop := Poll();
        if stop {
          return;
        }
        var n := if BATCH < |want| - i then BATCH else |want| - i;
        ghost var mid := state.State();
        var reached := FetchBatch(want[i..i + n]);
        if !reached {
          return;
        }
        forall j | Talks() && 0 <= j < i + n ensures Settled(state.State(), want[j]) {
          if j < i {
            SettledStays(mid, state.State(), want[j]);
          } else {
            assert want[i..i + n][j - i] == want[j];
          }
        }
        i := i + n;
      }
      if Talks() {
        forall k | 0 <= k < |refs| ensures Settled(state.State(), refs[k].anchor) {
          var a := refs[k].anchor;
          WantedOrKnown(before, refs, |refs|, k);
          if a in before.ok || a in before.stale {
            SettledStays(before, state.State(), a);
          } else {
            var j :| 0 <= j < |want| && want[j] == a;
          }
        }
      }
    }

    /** One request for several anchors: it fails as a whole, or every reply is used. */
    method FetchBatch(batch: seq<Anchor>) returns (reached: bool)
      requires Valid()
      modifies state, this`calls
      ensures Valid() && Gained()
      ensures !reached ==> !Talks() && state.State() == old(state.State())
      ensures reached && Talks() ==> forall k :: 0 <= k < |batch| ==> Settled(state.State(), batch[k])
    {
      var first := calls;
      calls := calls + |batch|;
      for k := 0 to |batch|
        invariant forall j :: 0 <= j < k ==> daemon(first + j, batch[j]).rpc.Answer?
      {
        if daemon(first + k, batch[k]).rpc.Unreachable? {
          return false;
        }
      }
      hide TrueOf, Honest, Canonical, Tree, DescendantsFail;
      for k := 0 to |batch|
        invariant Valid() && Gained()
        invariant Talks() ==> forall j :: 0 <= j < k ==> Settled(state.State(), batch[j])
      {
        var rpc := daemon(first + k, batch[k]).rpc;
        ghost var mid := state.State();
        assert Honest(blocks, best, batch[k].hash, rpc);
        var verdict := InterpretAnchorHeaderReply(rpc.reply, batch[k].height);
        RememberIsTrue(blocks, best, mid, batch[k], rpc.reply);
        state.CacheAnchorVerdict(batch[k], verdict);
        forall j | Talks() && 0 <= j < k ensures Settled(state.State(), batch[j]) {
          SettledStays(mid, state.State(), batch[j]);
        }
      }
      reached := true;
    }

    method Check(a: Anchor) returns (res: Verdict)
      requires Valid()
      modifies state, this`calls
      ensures Valid() && state.lastTip == old(state.lastTip)
      ensures res.OK? ==> Canonical(blocks, best, a)
      ensures !res.OK? && !res.NO_CONNECTION? ==> !Canonical(blocks, best, a)
      ensures res.NO_CONNECTION? ==> Silent(daemon(old(calls), a), a) && Fails()
    {
      var call := daemon(calls, a);
      assert Honest(blocks, best, a.hash, call.rpc);
      calls := calls + 1;
      res := state.CheckMainchainAnchor(a, call.now, call.rpc, call.synced, blocks, best);
    }

    /** Phases 1 and 2: the lowest badly anchored block among the `judged` topmost ones. */
    method FindLowestBad() returns (lowestBad: Hash, complete: bool, stopped: bool, ghost judged: nat)
      requires Valid()
      modifies state, this`calls, this`polls
      ensures Valid() && state.lastTip == old(state.lastTip)
      ensures judged <= |Walk(index, anchors, tip)|
      ensures complete ==> judged == |Walk(index, anchors, tip)|
      ensures lowestBad == LastBad(blocks, best, anchors, Walk(index, anchors, tip)[..judged])
      ensures complete ==> IsLowestBad(blocks, best, index, anchors, tip, lowestBad)
      ensures lowestBad != 0 ==> Watched(index, anchors, tip, lowestBad) && !Canonical(blocks, best, anchors[lowestBad])
      ensures stopped ==> Stops() && !complete
      ensures !complete ==> (stopped || Fails()) && judged < |Walk(index, anchors, tip)|
    {
      hide LastBad, Walk, Canonical, TrueOf, Honest, Tree, DescendantsFail, IsRunOf, Silent, Watched, IsLowestBad;
      var refs, ends := Snapshot();
      ghost var walk := Walk(index, anchors, tip);
      Prefetch(refs);
      lowestBad, judged, stopped := 0, 0, false;
      NothingIsBad(blocks, best, anchors, walk);
      for k := 0 to |refs|
        invariant Valid() && state.lastTip == old(state.lastTip)
        invariant judged == Start(ends, k) <= |walk|
        invariant lowestBad == LastBad(blocks, best, anchors, walk[..judged])
      {
        RunAt(anchors, walk, refs, ends, k);
        var stop := Poll();
        if stop {
          BadIsWatched(blocks, best, index, anchors, tip, judged);
          return lowestBad, false, true, judged;
        }
        ghost var asked := calls;
        var res := Check(refs[k].anchor);
        if res.NO_CONNECTION? {
          assert Silent(daemon(asked, refs[k].anchor), refs[k].anchor);
          BadIsWatched(blocks, best, index, anchors, tip, judged);
          return lowestBad, false, false, judged;
        }
        JudgeRun(blocks, best, anchors, walk, refs, ends, k);
        if !res.OK? {
          lowestBad := refs[k].block;
        }
        judged := ends[k];
      }
      complete := true;
      BadIsWatched(blocks, best, index, anchors, tip, judged);
      LastIsLowest(blocks, best, index, anchors, tip);
      assert walk[..judged] == walk;
    }

    /** Fail a block and everything built on it. */
    method InvalidateBlock(bad: Hash)
      requires Valid() && bad in index
      modifies this`failed
      ensures failed == old(failed) + Descendants(index, bad)
      ensures forall x :: x in failed <==>
        x in old(failed) || (x in index && index[bad].height <= index[x].height && BlockAt(index, x, index[bad].height) == bad)
      ensures DescendantsFail(index, failed)
    {
      failed := failed + set x | x in index && IsOnBestChain(index, x, bad);
      assert failed == old(failed) + Descendants(index, bad);
      FailMore(index, old(failed), bad);
    }

    /** Move to any block that has not failed; fork choice is not modelled. */
    method ActivateBestChain()
      requires Tree(index) && exists x :: x in index && x !in failed
      modifies this`tip
      ensures tip in index && tip !in failed
    {
      var t :| t in index && t !in failed;
      tip := t;
    }

    /**
     The invalidation loop.  Only blocks with a bad anchor are invalidated, whatever the
     daemon answers, and when every verdict was definitive the chain that remains active
     is anchored canonically down to its first pre-anchor block.
     */
    method Watch() returns (outcome: Outcome, ghost condemned: set<Hash>)
      requires Valid()
      modifies this, state
      ensures Valid() && state.lastTip == old(state.lastTip)
      ensures outcome.Quiet? ==> forall y :: Watched(index, anchors, tip, y) ==> Canonical(blocks, best, anchors[y])
      ensures outcome.CannotJudge? ==> Fails()
      ensures outcome.Abandoned? ==> Stops()
      ensures invalidated == old(invalidated) + condemned
      ensures forall x :: x in condemned ==> x in index && index[x].height > 0 && !Canonical(blocks, best, anchors[x])
      ensures Condemns(index, old(failed), condemned, failed)
    {
      hide TrueOf, Honest, Canonical, DescendantsFail, Tree, LastBad, Walk, Watched, IsLowestBad, Descendants, AllDescendants, Silent, Condemns;
      condemned := {};
      NoneCondemned(index, failed);
      while true
        invariant Valid() && state.lastTip == old(state.lastTip)
        invariant invalidated == old(invalidated) + condemned
        invariant forall x :: x in condemned ==> x in index && index[x].height > 0 && !Canonical(blocks, best, anchors[x])
        invariant failed == old(failed) + AllDescendants(index, condemned)
        decreases index.Keys - failed
      {
        Condemned(index, old(failed), condemned);
        var stop := Poll();
        if stop {
          return Abandoned, condemned;
        }
        var bad, complete, stopped, judged := FindLowestBad();
        if stopped {
          return Abandoned, condemned;
        }
        if bad == 0 {
          if complete {
            NoneIsBad(blocks, best, index, anchors, tip);
          }
          return if complete then Quiet else CannotJudge, condemned;
        }
        stop := Poll();
        if stop {
          return Abandoned, condemned;
        }
        WatchedOnChain(index, anchors, tip, bad);
        ParentSurvives(index, failed, tip, bad);
        InvalidateBlock(bad);
        OneMoreCondemned(index, condemned, bad);
        invalidated, condemned := invalidated + {bad}, condemned + {bad};
        ActivateBestChain();
      }
    }

    /**
     One tick: notice where the parent's tip moved, and then watch.  Verdicts may have been cached
     at any of the tips in `taken` since the last tick.
     */
    method Tick(reachable: bool, answered: nat -> bool, ghost taken: set<Hash>)
      returns (outcome: Outcome, ghost condemned: set<Hash>)
      requires Ready() && Inv(View(blocks, best, state.lastTip), taken, state.State())
      requires Agrees(View(blocks, best, state.lastTip), answered, taken)
      modifies this, state
      ensures !reachable ==> outcome.Abandoned? && condemned == {} && state.State() == old(state.State())
      ensures !reachable ==> state.lastTip == old(state.lastTip) && failed == old(failed) && tip == old(tip)
      ensures reachable ==> Valid() && state.lastTip == best
      ensures reachable ==> Inv(View(blocks, best, state.lastTip), {}, state.State())
      ensures outcome.Quiet? ==> forall y :: Watched(index, anchors, tip, y) ==> Canonical(blocks, best, anchors[y])
      ensures outcome.CannotJudge? ==> Fails()
      ensures outcome.Abandoned? ==> !reachable || Stops()
      ensures invalidated == old(invalidated) + condemned
      ensures forall x :: x in condemned ==> x in index && index[x].height > 0 && !Canonical(blocks, best, anchors[x])
      ensures Condemns(index, old(failed), condemned, failed)
    {
      hide TrueOf, Honest, Canonical, DescendantsFail, Agrees, Descendants, AllDescendants, Watched, Silent, Condemns;
      outcome, condemned := Abandoned, {};
      NoneCondemned(index, failed);
      Condemned(index, failed, {});
      if !reachable {
        return;
      }
      ghost var v, step := View(blocks, best, state.lastTip), AnchorCache.Tick(reachable, answered);
      TickKeeps(v, step, taken, state.State());
      state.NoticeTip(blocks, best, reachable, answered);
      outcome, condemned := Watch();
      TrueIsKept(View(blocks, best, best), state.State());
    }
  }

  /** What the walk found so far is a watched block with a bad anchor. */
  lemma BadIsWatched(blocks: Blocks, best: Hash, index: Blocks, anchors: Anchors, tip: Hash, judged: nat)
    requires Tree(blocks) && Tree(index) && anchors.Keys == index.Keys && tip in index
    requires judged <= |Walk(index, anchors, tip)|
    ensures var bad := LastBad(blocks, best, anchors, Walk(index, anchors, tip)[..judged]);
            bad != 0 ==> Watched(index, anchors, tip, bad) && !Canonical(blocks, best, anchors[bad])
  {
    var walk := Walk(index, anchors, tip);
    WalkIsComplete(index, anchors, tip);
    WalkHasNoNull(index, anchors, tip);
    LastBadFacts(blocks, best, anchors, walk[..judged]);
    hide Walk, LastBad, Canonical, Watched, Tree;
  }

  lemma TrueIsKept(v: View, c: Caches)
    requires Tree(v.blocks) && v.best in v.blocks && v.lastTip == v.best && TrueOf(c, v.blocks, v.best)
    ensures Inv(v, {}, c)
  {
  }

  ghost function AllDescendants(index: Blocks, roots: set<Hash>): set<Hash>
    requires Tree(index)
  {
    set x | x in index && exists r :: r in roots && x in Descendants(index, r)
  }

  /** Failed are, besides those that were, exactly the condemned blocks and what is built on them. */
  ghost predicate Condemns(index: Blocks, was: set<Hash>, condemned: set<Hash>, failed: set<Hash>)
    requires Tree(index)
  {
    forall x :: x in failed <==>
      x in was || exists r :: && r in condemned && r in index && x in index && index[r].height <= index[x].height
                              && BlockAt(index, x, index[r].height) == r
  }

  lemma NoneCondemned(index: Blocks, was: set<Hash>)
    requires Tree(index)
    ensures was == was + AllDescendants(index, {})
  {
  }

  lemma Condemned(index: Blocks, was: set<Hash>, condemned: set<Hash>)
    requires Tree(index)
    ensures Condemns(index, was, condemned, was + AllDescendants(index, condemned))
  {
    assert 0 !in index;
  }

  lemma NoneIsBad(blocks: Blocks, best: Hash, index: Blocks, anchors: Anchors, tip: Hash)
    requires Tree(blocks) && Tree(index) && anchors.Keys == index.Keys && IsLowestBad(blocks, best, index, anchors, tip, 0)
    ensures forall y :: Watched(index, anchors, tip, y) ==> Canonical(blocks, best, anchors[y])
  {
  }

  lemma WatchedOnChain(index: Blocks, anchors: Anchors, tip: Hash, y: Hash)
    requires Tree(index) && Watched(index, anchors, tip, y)
    ensures y in index && OnChain(index, tip, y) && index[y].height > 0
  {
  }

  lemma OneMoreCondemned(index: Blocks, roots: set<Hash>, bad: Hash)
    requires Tree(index)
    ensures AllDescendants(index, roots + {bad}) == AllDescendants(index, roots) + Descendants(index, bad)
  {
  }

  ghost function Descendants(index: Blocks, bad: Hash): set<Hash>
    requires Tree(index)
  {
    set x | x in index && OnChain(index, x, bad)
  }

  lemma FailMore(index: Blocks, failed: set<Hash>, bad: Hash)
    requires DescendantsFail(index, failed) && bad in index
    ensures DescendantsFail(index, failed + Descendants(index, bad))
  {
    var after := failed + Descendants(index, bad);
    forall x, y | x in index && y in after && y in index && BlockAt(index, x, index[y].height) == y
      ensures x in after
    {
      if y in Descendants(index, bad) {
        TransitiveDescent(index, x, y, bad);
      }
    }
  }

  lemma TransitiveDescent(index: Blocks, x: Hash, y: Hash, z: Hash)
    requires Tree(index) && x in index && OnChain(index, x, y) && OnChain(index, y, z)
    ensures OnChain(index, x, z)
  {
    if index[y].height <= index[x].height && index[z].height <= index[y].height {
      AncestryFixed(index, x, index[y].height, index[z].height);
    }
  }

  lemma {:induction false} WalkHasNoNull(index: Blocks, anchors: Anchors, x: Hash)
    requires Tree(index) && anchors.Keys == index.Keys
    ensures forall y :: y in Walk(index, anchors, x) ==> y in index
    ensures 0 !in Walk(index, anchors, x)
  {
    forall i | 0 <= i < |Walk(index, anchors, x)|
      ensures Walk(index, anchors, x)[i] in index
    {
      WalkIsAncestry(index, anchors, x, i);
    }
  }

  /** Below an invalidated block of the active chain there is always a block to fall back to. */
  lemma ParentSurvives(index: Blocks, failed: set<Hash>, tip: Hash, bad: Hash)
    requires DescendantsFail(index, failed) && tip in index && tip !in failed
    requires OnChain(index, tip, bad) && index[bad].height > 0
    ensures bad !in failed && bad in Descendants(index, bad)
    ensures exists x :: x in index && x !in failed && x !in Descendants(index, bad)
  {
    assert Linked(index, bad);
    var p := index[bad].prev;
    assert OnChain(index, bad, p) && OnChain(index, bad, bad);
    TransitiveDescent(index, tip, bad, p);
    assert p !in failed;
    assert p !in Descendants(index, bad);
  }

  /** One verdict settles a whole run: its lowest block is the one to name. */
  lemma JudgeRun(blocks: Blocks, best: Hash, anchors: Anchors, walk: seq<Hash>, refs: seq<AnchorRef>, ends: seq<nat>, k: nat)
    requires Tree(blocks) && Covers(anchors, walk, refs, ends) && k < |refs|
    ensures Start(ends, k) < ends[k] <= |walk|
    ensures LastBad(blocks, best, anchors, walk[..ends[k]]) ==
              if Canonical(blocks, best, refs[k].anchor) then LastBad(blocks, best, anchors, walk[..Start(ends, k)])
              else refs[k].block
  {
    assert IsRunOf(anchors, walk, Start(ends, k), ends[k], refs[k]);
    if Canonical(blocks, best, refs[k].anchor) {
      LastBadExtend(blocks, best, anchors, walk, Start(ends, k), ends[k]);
    } else {
      assert anchors[walk[ends[k] - 1]] == refs[k].anchor;
    }
  }

  /** A block that descends from a failed one is failed. */
  ghost predicate DescendantsFail(index: Blocks, failed: set<Hash>) {
    && Tree(index)
    && forall x, y :: x in index && y in failed && y in index && BlockAt(index, x, index[y].height) == y ==> x in failed
  }
}
