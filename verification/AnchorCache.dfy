/**
 The anchor verdict caches of src/anchor.cpp.

 The parent chain is a block tree known to a daemon, with one best tip that may move to
 any block of the tree.  The node memoises verdicts "this (height, hash) is, or is not, on
 the best chain" and, when the best tip has moved, keeps exactly those that the move cannot
 have changed.
 */
module AnchorCache {

  /** A block hash; 0 is the null hash. */
  type Hash = nat

  datatype Header = Header(height: nat, prev: Hash)

  type Blocks = map<Hash, Header>

  predicate Linked(blocks: Blocks, x: Hash)
    requires x in blocks
  {
    if blocks[x].height == 0 then blocks[x].prev == 0
    else blocks[x].prev in blocks && blocks[blocks[x].prev].height == blocks[x].height - 1
  }

  /** Every block but a root has a known parent one height below. */
  ghost predicate Tree(blocks: Blocks) {
    0 !in blocks && forall x {:trigger Linked(blocks, x)} :: x in blocks ==> Linked(blocks, x)
  }

  /** The block at height h on the chain that ends in `tip`, or the null hash. */
  ghost function BlockAt(blocks: Blocks, tip: Hash, h: nat): Hash
    requires Tree(blocks)
    decreases if tip in blocks then blocks[tip].height + 1 else 0
  {
    if tip !in blocks || h > blocks[tip].height then 0
    else if h == blocks[tip].height then tip
    else assert Linked(blocks, tip); BlockAt(blocks, blocks[tip].prev, h)
  }

  /** A reference to a parent-chain block, as a Sequentia header or a checkpoint makes it. */
  datatype Anchor = Anchor(height: nat, hash: Hash)

  ghost predicate Canonical(blocks: Blocks, tip: Hash, a: Anchor)
    requires Tree(blocks)
  {
    a.hash != 0 && BlockAt(blocks, tip, a.height) == a.hash
  }

  ghost predicate OnChain(blocks: Blocks, tip: Hash, x: Hash)
    requires Tree(blocks)
  {
    x in blocks && BlockAt(blocks, tip, blocks[x].height) == x
  }

  lemma {:induction false} BlockAtFacts(blocks: Blocks, tip: Hash, h: nat)
    requires Tree(blocks) && tip in blocks && h <= blocks[tip].height
    ensures BlockAt(blocks, tip, h) in blocks && blocks[BlockAt(blocks, tip, h)].height == h
    decreases blocks[tip].height
  {
    if h < blocks[tip].height {
      assert Linked(blocks, tip);
      BlockAtFacts(blocks, blocks[tip].prev, h);
    }
  }

  /** Ancestry is a property of a block, not of the chain it sits in. */
  lemma {:induction false} AncestryFixed(blocks: Blocks, tip: Hash, f: nat, h: nat)
    requires Tree(blocks) && tip in blocks && h <= f <= blocks[tip].height
    ensures BlockAt(blocks, tip, h) == BlockAt(blocks, BlockAt(blocks, tip, f), h)
    decreases blocks[tip].height
  {
    if f < blocks[tip].height {
      assert Linked(blocks, tip);
      AncestryFixed(blocks, blocks[tip].prev, f, h);
    }
  }

  /** Learning more blocks changes no chain that was known. */
  lemma {:induction false} GrowthKeeps(blocks: Blocks, blocks': Blocks, tip: Hash, h: nat)
    requires Tree(blocks) && Tree(blocks') && tip in blocks
    requires forall x :: x in blocks ==> x in blocks' && blocks'[x] == blocks[x]
    ensures BlockAt(blocks', tip, h) == BlockAt(blocks, tip, h)
    decreases blocks[tip].height
  {
    if h < blocks[tip].height {
      assert Linked(blocks, tip);
      assert Linked(blocks', tip);
      GrowthKeeps(blocks, blocks', blocks[tip].prev, h);
    }
  }

  // ----- Where a tip move leaves the best chain unchanged -----

  /** Walking back from `x`, the height of the first block on the chain of `best`; -1 if there is none. */
  ghost function ForkHeight(blocks: Blocks, best: Hash, x: Hash): (f: int)
    requires Tree(blocks) && x in blocks
    ensures -1 <= f <= blocks[x].height
    decreases blocks[x].height
  {
    if OnChain(blocks, best, x) then blocks[x].height
    else assert Linked(blocks, x); if blocks[x].prev == 0 then -1
    else ForkHeight(blocks, best, blocks[x].prev)
  }

  /** The two chains are the same up to the fork height and differ at every height above it. */
  lemma {:induction false} ForkHeightIsExact(blocks: Blocks, best: Hash, x: Hash, h: nat)
    requires Tree(blocks) && x in blocks && best in blocks
    ensures h <= ForkHeight(blocks, best, x) ==> BlockAt(blocks, x, h) == BlockAt(blocks, best, h) != 0
    ensures ForkHeight(blocks, best, x) < h <= blocks[x].height ==> BlockAt(blocks, x, h) != BlockAt(blocks, best, h)
    decreases blocks[x].height
  {
    var top := blocks[x].height;
    assert Linked(blocks, x);
    if OnChain(blocks, best, x) {
      if h <= top {
        if top <= blocks[best].height {
          AncestryFixed(blocks, best, top, h);
        }
        BlockAtFacts(blocks, x, h);
      }
    } else if blocks[x].prev != 0 && h < top {
      ForkHeightIsExact(blocks, best, blocks[x].prev, h);
    }
  }

  const ANCHOR_FORK_WALK_MAX: nat := 2016

  /** Whether the walk back from `x` finds the fork with the answers it gets, starting at request k. */
  ghost predicate WalkSucceeds(blocks: Blocks, best: Hash, x: Hash, answered: nat -> bool) {
    && Tree(blocks) && x in blocks
    && ForkHeight(blocks, best, x) >= 0
    && blocks[x].height - ForkHeight(blocks, best, x) <= ANCHOR_FORK_WALK_MAX
    && forall k :: 0 <= k <= blocks[x].height - ForkHeight(blocks, best, x) ==> answered(k)
  }

  lemma ForkOfParent(blocks: Blocks, best: Hash, x: Hash)
    requires Tree(blocks) && x in blocks && !OnChain(blocks, best, x)
    ensures ForkHeight(blocks, best, x) < blocks[x].height
    ensures if blocks[x].prev == 0 then ForkHeight(blocks, best, x) == -1
            else && blocks[x].prev in blocks && blocks[blocks[x].prev].height == blocks[x].height - 1
                 && ForkHeight(blocks, best, blocks[x].prev) == ForkHeight(blocks, best, x)
  {
    assert Linked(blocks, x);
  }

  /**
   The highest parent height whose best-chain block is provably the same after the best
   tip moved away from `oldTip`, or -1.  `answered(k)` says whether the daemon answers
   request number k; it does not know hashes outside its tree.
   */
  method MainchainUnchangedHeight(blocks: Blocks, best: Hash, oldTip: Hash, answered: nat -> bool) returns (f: int)
    requires Tree(blocks) && best in blocks
    ensures f == if WalkSucceeds(blocks, best, oldTip, answered) then ForkHeight(blocks, best, oldTip) else -1
  {
    if oldTip == 0 {
      return -1;
    }
    hide ForkHeight, OnChain, Tree;
    var cursor := oldTip;
    for depth := 0 to ANCHOR_FORK_WALK_MAX + 1
      invariant oldTip !in blocks ==> depth == 0 && cursor == oldTip
      invariant oldTip in blocks ==>
        && cursor in blocks && blocks[cursor].height == blocks[oldTip].height - depth
        && ForkHeight(blocks, best, cursor) == ForkHeight(blocks, best, oldTip)
      invariant forall k :: 0 <= k < depth ==> answered(k)
    {
      if !answered(depth) || cursor !in blocks {
        return -1;
      }
      if IsOnBestChain(blocks, best, cursor) {
        ForkOfChain(blocks, best, cursor);
        return blocks[cursor].height;
      }
      ForkOfParent(blocks, best, cursor);
      if blocks[cursor].prev == 0 {
        return -1;
      }
      cursor := blocks[cursor].prev;
    }
    return -1;
  }

  lemma ForkOfChain(blocks: Blocks, best: Hash, x: Hash)
    requires Tree(blocks) && OnChain(blocks, best, x)
    ensures ForkHeight(blocks, best, x) == blocks[x].height
  {
  }

  /** What the daemon reports as at least one confirmation. */
  predicate IsOnBestChain(blocks: Blocks, best: Hash, x: Hash)
    requires Tree(blocks)
    ensures IsOnBestChain(blocks, best, x) <==> OnChain(blocks, best, x)
    decreases if best in blocks then blocks[best].height + 1 else 0
  {
    x in blocks && best in blocks && blocks[x].height <= blocks[best].height &&
    (if blocks[x].height == blocks[best].height then x == best
     else assert Linked(blocks, best); IsOnBestChain(blocks, blocks[best].prev, x))
  }

  // ----- Verdicts -----

  datatype Option<T> = None | Some(value: T)

  datatype Verdict = OK | NOT_FOUND | STALE | HEIGHT_MISMATCH | NO_CONNECTION

  /** A `getblockheader` reply; fields that are not numbers are None. */
  datatype Reply =
    | Error(code: Option<int>)
    | NotAnObject
    | HeaderReply(confirmations: Option<int>, height: Option<int>)

  /** What a call of the daemon comes back with. */
  datatype Rpc = Unreachable | Answer(reply: Reply)

  const RPC_INVALID_ADDRESS_OR_KEY: int := -5

  function InterpretAnchorHeaderReply(reply: Reply, height: nat): Verdict {
    match reply
    case Error(code) => if code == Some(RPC_INVALID_ADDRESS_OR_KEY) then NOT_FOUND else NO_CONNECTION
    case NotAnObject => NO_CONNECTION
    case HeaderReply(confirmations, blockheight) =>
      if confirmations.None? || confirmations.value < 1 then STALE
      else if blockheight != Some(height) then HEIGHT_MISMATCH
      else OK
  }

  /** The replies a daemon may give: the truth, or nothing that says anything about the block. */
  ghost predicate Honest(blocks: Blocks, best: Hash, x: Hash, rpc: Rpc)
    requires Tree(blocks) && best in blocks
  {
    match rpc
    case Unreachable => true
    case Answer(NotAnObject) => true
    case Answer(Error(code)) => code == Some(RPC_INVALID_ADDRESS_OR_KEY) ==> x !in blocks
    case Answer(HeaderReply(confirmations, height)) =>
      && x in blocks && height == Some(blocks[x].height)
      && confirmations == Some(if OnChain(blocks, best, x) then blocks[best].height - blocks[x].height + 1 else -1)
  }

  /** A definitive verdict on an honest reply is the truth about the best chain. */
  lemma InterpretIsTruthful(blocks: Blocks, best: Hash, a: Anchor, reply: Reply)
    requires Tree(blocks) && best in blocks && Honest(blocks, best, a.hash, Answer(reply))
    ensures var v := InterpretAnchorHeaderReply(reply, a.height);
            && (v.OK? ==> Canonical(blocks, best, a))
            && (v.STALE? || v.HEIGHT_MISMATCH? || v.NOT_FOUND? ==> !Canonical(blocks, best, a))
            && (v.NOT_FOUND? ==> a.hash !in blocks)
            && (reply.HeaderReply? && Canonical(blocks, best, a) ==> v.OK?)
  {
    if a.height <= blocks[best].height {
      BlockAtFacts(blocks, best, a.height);
    }
    if OnChain(blocks, best, a.hash) && blocks[a.hash].height <= blocks[best].height {
      BlockAtFacts(blocks, best, blocks[a.hash].height);
    }
  }

  const ANCHOR_OK_CACHE_MAX: nat := 0x10_0000
  const ANCHOR_UNKNOWN_MAX: nat := 10000
  const ANCHOR_UNKNOWN_TTL_SECONDS: int := 60

  /** The global verdict caches; `unknown` maps an anchor to when the daemon said it is unknown. */
  datatype Caches = Caches(ok: set<Anchor>, stale: set<Anchor>, unknown: map<Anchor, int>)

  function Remember(c: Caches, a: Anchor, v: Verdict): Caches {
    if v.OK? then (if |c.ok| < ANCHOR_OK_CACHE_MAX then c.(ok := c.ok + {a}) else c)
    else if v.STALE? || v.HEIGHT_MISMATCH? then c.(stale := c.stale + {a})
    else c
  }

  function DropAbove(c: Caches, f: int): Caches {
    Caches(set a | a in c.ok && a.height <= f, set a | a in c.stale && a.height <= f, map[])
  }

  /** The verdict of CheckMainchainAnchor and the caches it leaves; `synced` is MainchainSyncedTo. */
  function Check(c: Caches, a: Anchor, now: int, rpc: Rpc, synced: bool): (Verdict, Caches) {
    if a in c.ok then (OK, c)
    else if a in c.stale then (STALE, c)
    else if a in c.unknown && now - c.unknown[a] < ANCHOR_UNKNOWN_TTL_SECONDS then (NOT_FOUND, c)
    else
      var d := c.(unknown := c.unknown - {a});
      if rpc.Unreachable? then (NO_CONNECTION, d)
      else
        var v := InterpretAnchorHeaderReply(rpc.reply, a.height);
        if v.NOT_FOUND? then
          if !synced then (NO_CONNECTION, d)
          else (v, d.(unknown := (if |d.unknown| >= ANCHOR_UNKNOWN_MAX then map[] else d.unknown)[a := now]))
        else (v, Remember(d, a, v))
  }

  class AnchorState {
    var okCache: set<Anchor>
    var staleCache: set<Anchor>
    var unknown: map<Anchor, int>
    var lastTip: Hash

    function State(): Caches
      reads this
    {
      Caches(okCache, staleCache, unknown)
    }

    constructor ()
      ensures State() == Caches({}, {}, map[]) && lastTip == 0
    {
      okCache, staleCache, unknown, lastTip := {}, {}, map[], 0;
    }

    method CacheAnchorVerdict(a: Anchor, res: Verdict)
      modifies this
      ensures State() == Remember(old(State()), a, res) && lastTip == old(lastTip)
    {
      if res.OK? {
        if |okCache| < ANCHOR_OK_CACHE_MAX {
          okCache := okCache + {a};
        }
      } else if res.STALE? || res.HEIGHT_MISMATCH? {
        staleCache := staleCache + {a};
      }
    }

    method DropAnchorCachesAbove(unchangedHeight: int)
      modifies this
      ensures State() == DropAbove(old(State()), unchangedHeight) && lastTip == old(lastTip)
    {
      unknown := map[];
      if unchangedHeight < 0 {
        okCache, staleCache := {}, {};
        return;
      }
      okCache := set a | a in okCache && a.height < unchangedHeight + 1;
      staleCache := set a | a in staleCache && a.height < unchangedHeight + 1;
    }

    /** With caches that are true of the parent's best chain, and an honest reply, the verdict is the truth. */
    method CheckMainchainAnchor(a: Anchor, now: int, rpc: Rpc, synced: bool, ghost blocks: Blocks, ghost best: Hash)
      returns (res: Verdict)
      modifies this
      ensures (res, State()) == Check(old(State()), a, now, rpc, synced) && lastTip == old(lastTip)
      ensures Tree(blocks) && best in blocks && TrueOf(old(State()), blocks, best) && Honest(blocks, best, a.hash, rpc) ==>
        && TrueOf(State(), blocks, best)
        && (res.OK? ==> Canonical(blocks, best, a))
        && (!res.OK? && !res.NO_CONNECTION? ==> !Canonical(blocks, best, a))
    {
      hide TrueOf, Canonical, Honest, Tree;
      if Tree(blocks) && best in blocks && TrueOf(State(), blocks, best) && Honest(blocks, best, a.hash, rpc) {
        CheckIsTruthful(blocks, best, State(), a, now, rpc, synced);
      }
      if a in okCache {
        return OK;
      }
      if a in staleCache {
        return STALE;
      }
      if a in unknown {
        if now - unknown[a] < ANCHOR_UNKNOWN_TTL_SECONDS {
          return NOT_FOUND;
        }
      }
      unknown := unknown - {a};
      if rpc.Unreachable? {
        return NO_CONNECTION;
      }
      res := InterpretAnchorHeaderReply(rpc.reply, a.height);
      if res.NOT_FOUND? {
        if !synced {
          return NO_CONNECTION;
        }
        if |unknown| >= ANCHOR_UNKNOWN_MAX {
          unknown := map[];
        }
        unknown := unknown[a := now];
        return;
      }
      CacheAnchorVerdict(a, res);
    }

    /** The start of a watcher tick: notice a tip move and drop what it may have changed. */
    method NoticeTip(blocks: Blocks, best: Hash, reachable: bool, answered: nat -> bool)
      requires Tree(blocks) && best in blocks
      modifies this
      ensures (State(), lastTip) == AfterTick(blocks, best, old(State()), old(lastTip), reachable, answered)
    {
      if !reachable {
        return;
      }
      if best != lastTip {
        var unchangedHeight := MainchainUnchangedHeight(blocks, best, lastTip, answered);
        lastTip := best;
        DropAnchorCachesAbove(unchangedHeight);
      }
    }
  }

  ghost function AfterTick(blocks: Blocks, best: Hash, c: Caches, lastTip: Hash, reachable: bool, answered: nat -> bool)
    : (Caches, Hash)
    requires Tree(blocks)
  {
    if !reachable || best == lastTip then (c, lastTip)
    else if WalkSucceeds(blocks, best, lastTip, answered) then (DropAbove(c, ForkHeight(blocks, best, lastTip)), best)
    else (DropAbove(c, -1), best)
  }

  // ----- Runs -----

  /** Every cached verdict is true of the chain ending in `tip`. */
  ghost predicate TrueOf(c: Caches, blocks: Blocks, tip: Hash)
    requires Tree(blocks)
  {
    && (forall a :: a in c.ok ==> Canonical(blocks, tip, a))
    && (forall a :: a in c.stale ==> !Canonical(blocks, tip, a))
    && (forall a :: a in c.unknown ==> !Canonical(blocks, tip, a))
  }

  /** The parent chain, and the tip that the last tick recorded. */
  datatype View = View(blocks: Blocks, best: Hash, lastTip: Hash)

  datatype Step =
    | Move(blocks: Blocks, best: Hash)
    | Tick(reachable: bool, answered: nat -> bool)

  datatype Question = Question(anchor: Anchor, now: int, rpc: Rpc, synced: bool)

  ghost predicate Grows(blocks: Blocks, blocks': Blocks) {
    Tree(blocks') && forall x :: x in blocks ==> x in blocks' && blocks'[x] == blocks[x]
  }

  /** The parent may learn blocks and move its best tip to any block it knows, at any time. */
  ghost predicate Legal(v: View, s: Step) {
    && Tree(v.blocks) && v.best in v.blocks
    && (s.Move? ==> Grows(v.blocks, s.blocks) && s.best in s.blocks)
  }

  function Next(v: View, s: Step): View {
    if s.Move? then v.(blocks := s.blocks, best := s.best)
    else if s.reachable then v.(lastTip := v.best)
    else v
  }

  predicate Records(s: Step) {
    s.Tick? && s.reachable
  }

  /** What happens to the parent and to the recorded tip; it does not depend on what is asked. */
  ghost predicate IsSchedule(vs: seq<View>, steps: seq<Step>) {
    && |vs| == |steps| + 1 && vs[0].lastTip == 0
    && (forall k :: 0 <= k < |steps| ==> Legal(vs[k], steps[k]) && vs[k + 1] == Next(vs[k], steps[k]))
  }

  /** Any number of questions before every step, each answered honestly or not at all. */
  ghost predicate IsRun(vs: seq<View>, steps: seq<Step>, qs: seq<seq<Question>>) {
    && IsSchedule(vs, steps) && |qs| == |steps|
    && forall k :: 0 <= k < |steps| ==> AllHonest(vs[k], qs[k])
  }

  ghost predicate AllHonest(v: View, qs: seq<Question>) {
    && Tree(v.blocks) && v.best in v.blocks
    && forall i :: 0 <= i < |qs| ==> Honest(v.blocks, v.best, qs[i].anchor.hash, qs[i].rpc)
  }

  function AskAll(c: Caches, qs: seq<Question>): Caches {
    if qs == [] then c else
    var q := qs[|qs| - 1];
    Check(AskAll(c, qs[..|qs| - 1]), q.anchor, q.now, q.rpc, q.synced).1
  }

  ghost function AfterStep(v: View, s: Step, c: Caches): Caches
    requires Legal(v, s)
  {
    if s.Move? then c else AfterTick(v.blocks, v.best, c, v.lastTip, s.reachable, s.answered).0
  }

  const NO_VERDICTS := Caches({}, {}, map[])

  /** The caches before round k, and those before its step. */
  ghost function CachesAt(vs: seq<View>, steps: seq<Step>, qs: seq<seq<Question>>, k: nat): Caches
    requires IsRun(vs, steps, qs) && k <= |steps|
    decreases k, 0
  {
    if k == 0 then NO_VERDICTS else AfterStep(vs[k - 1], steps[k - 1], Asked(vs, steps, qs, k - 1))
  }

  ghost function Asked(vs: seq<View>, steps: seq<Step>, qs: seq<seq<Question>>, k: nat): Caches
    requires IsRun(vs, steps, qs) && k < |steps|
    decreases k, 1
  {
    AskAll(CachesAt(vs, steps, qs, k), qs[k])
  }

  /** The tips at which verdicts were cached since the last record, round k included. */
  ghost function Taken(vs: seq<View>, steps: seq<Step>, qs: seq<seq<Question>>, k: nat): set<Hash>
    requires IsRun(vs, steps, qs) && k < |steps|
    decreases k, 1
  {
    var c, d := CachesAt(vs, steps, qs, k), Asked(vs, steps, qs, k);
    TakenBefore(vs, steps, qs, k) + if c.ok != d.ok || c.stale != d.stale then {vs[k].best} else {}
  }

  ghost function TakenBefore(vs: seq<View>, steps: seq<Step>, qs: seq<seq<Question>>, k: nat): set<Hash>
    requires IsRun(vs, steps, qs) && k <= |steps|
    decreases k, 0
  {
    if k == 0 || Records(steps[k - 1]) then {} else Taken(vs, steps, qs, k - 1)
  }

  /** Whether a reachable tick keeps verdicts about height h. */
  ghost predicate Keeps(v: View, answered: nat -> bool, h: nat)
    requires Tree(v.blocks)
  {
    || v.best == v.lastTip
    || (WalkSucceeds(v.blocks, v.best, v.lastTip, answered) && h <= ForkHeight(v.blocks, v.best, v.lastTip))
  }

  /** The chains of these tips agree with the best chain wherever the tick keeps verdicts. */
  ghost predicate Agrees(v: View, answered: nat -> bool, tips: set<Hash>)
    requires Tree(v.blocks)
  {
    forall t, h: nat {:trigger BlockAt(v.blocks, t, h)} :: t in tips && Keeps(v, answered, h) ==>
      BlockAt(v.blocks, t, h) == BlockAt(v.blocks, v.best, h)
  }

  // ----- What every step keeps -----

  ghost predicate Backed(blocks: Blocks, lastTip: Hash, taken: set<Hash>, a: Anchor)
    requires Tree(blocks)
  {
    Canonical(blocks, lastTip, a) || exists t :: t in taken && Canonical(blocks, t, a)
  }

  ghost predicate Doubted(blocks: Blocks, lastTip: Hash, taken: set<Hash>, a: Anchor)
    requires Tree(blocks)
  {
    !Canonical(blocks, lastTip, a) || exists t :: t in taken && !Canonical(blocks, t, a)
  }

  /** Once a tip is recorded, every verdict is true of its chain or of that of a tip where it was cached. */
  ghost predicate Inv(v: View, taken: set<Hash>, c: Caches) {
    && Tree(v.blocks) && v.best in v.blocks
    && (v.lastTip != 0 ==>
          && v.lastTip in v.blocks && (forall t :: t in taken ==> t in v.blocks)
          && (forall a :: a in c.ok ==> Backed(v.blocks, v.lastTip, taken, a))
          && (forall a :: a in c.stale ==> Doubted(v.blocks, v.lastTip, taken, a))
          && (forall a :: a in c.unknown ==> !Canonical(v.blocks, v.lastTip, a)))
  }

  lemma CanonicalGrows(blocks: Blocks, blocks': Blocks, tip: Hash, a: Anchor)
    requires Tree(blocks) && Grows(blocks, blocks') && tip in blocks
    ensures Canonical(blocks', tip, a) == Canonical(blocks, tip, a)
  {
    GrowthKeeps(blocks, blocks', tip, a.height);
  }

  lemma MoveKeeps(v: View, s: Step, taken: set<Hash>, c: Caches)
    requires Inv(v, taken, c) && Legal(v, s) && s.Move?
    ensures Inv(Next(v, s), taken, c)
  {
    hide Canonical, Tree;
    if v.lastTip != 0 {
      forall a: Anchor, t | t in taken || t == v.lastTip
        ensures Canonical(s.blocks, t, a) == Canonical(v.blocks, t, a)
      {
        CanonicalGrows(v.blocks, s.blocks, t, a);
      }
      forall a | a in c.ok ensures Backed(s.blocks, v.lastTip, taken, a) {
        assert Backed(v.blocks, v.lastTip, taken, a);
      }
      forall a | a in c.stale ensures Doubted(s.blocks, v.lastTip, taken, a) {
        assert Doubted(v.blocks, v.lastTip, taken, a);
      }
    }
  }

  lemma UnknownIsOffEveryChain(blocks: Blocks, tip: Hash, a: Anchor)
    requires Tree(blocks) && tip in blocks && a.hash !in blocks
    ensures !Canonical(blocks, tip, a)
  {
    if a.height <= blocks[tip].height {
      BlockAtFacts(blocks, tip, a.height);
    }
  }

  /** A question keeps the invariant if the best tip is among those where verdicts were cached, or caches none. */
  lemma AskKeeps(v: View, q: Question, taken: set<Hash>, c: Caches)
    requires Inv(v, taken, c) && Honest(v.blocks, v.best, q.anchor.hash, q.rpc)
    ensures var d := Check(c, q.anchor, q.now, q.rpc, q.synced).1;
            && c.ok <= d.ok && c.stale <= d.stale
            && Inv(v, if c.ok == d.ok && c.stale == d.stale then taken else taken + {v.best}, d)
  {
    var d := Check(c, q.anchor, q.now, q.rpc, q.synced).1;
    if q.rpc.Answer? {
      InterpretIsTruthful(v.blocks, v.best, q.anchor, q.rpc.reply);
      if q.anchor.hash !in v.blocks && v.lastTip in v.blocks {
        UnknownIsOffEveryChain(v.blocks, v.lastTip, q.anchor);
      }
    }
    hide Canonical, Tree, Honest, InterpretAnchorHeaderReply;
    if v.lastTip != 0 && (c.ok != d.ok || c.stale != d.stale) {
      MoreTaken(v.blocks, v.lastTip, taken, v.best, c);
    }
  }

  lemma MoreTaken(blocks: Blocks, lastTip: Hash, taken: set<Hash>, t: Hash, c: Caches)
    requires Tree(blocks)
    requires forall a :: a in c.ok ==> Backed(blocks, lastTip, taken, a)
    requires forall a :: a in c.stale ==> Doubted(blocks, lastTip, taken, a)
    ensures forall a :: a in c.ok ==> Backed(blocks, lastTip, taken + {t}, a)
    ensures forall a :: a in c.stale ==> Doubted(blocks, lastTip, taken + {t}, a)
    ensures forall a :: Canonical(blocks, t, a) ==> Backed(blocks, lastTip, taken + {t}, a)
    ensures forall a :: !Canonical(blocks, t, a) ==> Doubted(blocks, lastTip, taken + {t}, a)
  {
    hide Canonical;
    assert t in taken + {t};
  }

  lemma {:induction false} AskAllKeeps(v: View, qs: seq<Question>, taken: set<Hash>, c: Caches)
    requires Inv(v, taken, c) && AllHonest(v, qs)
    ensures var d := AskAll(c, qs);
            && c.ok <= d.ok && c.stale <= d.stale
            && Inv(v, if c.ok == d.ok && c.stale == d.stale then taken else taken + {v.best}, d)
  {
    hide Inv, Honest, Check;
    if qs != [] {
      var n := |qs| - 1;
      AskAllKeeps(v, qs[..n], taken, c);
      var m := AskAll(c, qs[..n]);
      AskKeeps(v, qs[n], if c.ok == m.ok && c.stale == m.stale then taken else taken + {v.best}, m);
      assert taken + {v.best} + {v.best} == taken + {v.best};
    }
  }

  /** A reachable tick leaves true verdicts if the tips where verdicts were cached agree with the best chain. */
  lemma TickKeeps(v: View, s: Step, taken: set<Hash>, c: Caches)
    requires Inv(v, taken, c) && Legal(v, s) && s.Tick?
    ensures !s.reachable ==> AfterStep(v, s, c) == c
    ensures s.reachable && Agrees(v, s.answered, taken) ==>
      Inv(Next(v, s), {}, AfterStep(v, s, c)) && TrueOf(AfterStep(v, s, c), v.blocks, v.best)
  {
    if s.reachable && Agrees(v, s.answered, taken) {
      var d := AfterStep(v, s, c);
      forall a | a in d.ok ensures Canonical(v.blocks, v.best, a) {
        KeptAgrees(v, s.answered, taken, a);
        assert Backed(v.blocks, v.lastTip, taken, a);
      }
      forall a | a in d.stale ensures !Canonical(v.blocks, v.best, a) {
        KeptAgrees(v, s.answered, taken, a);
        assert Doubted(v.blocks, v.lastTip, taken, a);
      }
    }
  }

  /** At a height that is kept, the recorded chain and those of the agreeing tips are the best chain. */
  lemma KeptAgrees(v: View, answered: nat -> bool, taken: set<Hash>, a: Anchor)
    requires Tree(v.blocks) && v.best in v.blocks && Keeps(v, answered, a.height) && Agrees(v, answered, taken)
    ensures v.lastTip in v.blocks
    ensures Canonical(v.blocks, v.lastTip, a) == Canonical(v.blocks, v.best, a)
    ensures forall t :: t in taken ==> Canonical(v.blocks, t, a) == Canonical(v.blocks, v.best, a)
  {
    if v.best != v.lastTip {
      ForkHeightIsExact(v.blocks, v.best, v.lastTip, a.height);
    }
  }

  // ----- Soundness of runs -----

  /** Every reachable tick before round k finds agreeing tips. */
  ghost predicate Harmless(vs: seq<View>, steps: seq<Step>, qs: seq<seq<Question>>, k: nat)
    requires IsRun(vs, steps, qs) && k <= |steps|
  {
    forall j :: 0 <= j < k && Records(steps[j]) ==>
      Tree(vs[j].blocks) && Agrees(vs[j], steps[j].answered, Taken(vs, steps, qs, j))
  }

  lemma {:induction false} RunKeeps(vs: seq<View>, steps: seq<Step>, qs: seq<seq<Question>>, k: nat)
    requires IsRun(vs, steps, qs) && k < |steps| && Harmless(vs, steps, qs, k)
    ensures Inv(vs[k], TakenBefore(vs, steps, qs, k), CachesAt(vs, steps, qs, k))
    ensures Inv(vs[k], Taken(vs, steps, qs, k), Asked(vs, steps, qs, k))
  {
    hide Inv, Agrees, Honest, AskAll, AfterStep;
    assert Legal(vs[k], steps[k]) && AllHonest(vs[k], qs[k]);
    if k == 0 {
      StartKeeps(vs[0]);
    } else {
      RunKeeps(vs, steps, qs, k - 1);
      assert Legal(vs[k - 1], steps[k - 1]);
      StepKeeps(vs[k - 1], steps[k - 1], Taken(vs, steps, qs, k - 1), Asked(vs, steps, qs, k - 1));
    }
    AskAllKeeps(vs[k], qs[k], TakenBefore(vs, steps, qs, k), CachesAt(vs, steps, qs, k));
    assert TakenBefore(vs, steps, qs, k) + {} == TakenBefore(vs, steps, qs, k);
  }

  lemma StartKeeps(v: View)
    requires Tree(v.blocks) && v.best in v.blocks && v.lastTip == 0
    ensures Inv(v, {}, NO_VERDICTS)
  {
  }

  lemma StepKeeps(v: View, s: Step, taken: set<Hash>, c: Caches)
    requires Inv(v, taken, c) && Legal(v, s)
    requires Records(s) ==> Agrees(v, s.answered, taken)
    ensures Inv(Next(v, s), if Records(s) then {} else taken, AfterStep(v, s, c))
  {
    if s.Move? {
      MoveKeeps(v, s, taken, c);
    } else {
      TickKeeps(v, s, taken, c);
    }
  }

  /**
   In every run, whatever the parent does: as long as every tick that reached the daemon found
   the tips where verdicts were cached in agreement with the best chain at the heights it keeps,
   every such tick leaves verdicts that are all true of the best chain.
   */
  lemma RunsAreSound(vs: seq<View>, steps: seq<Step>, qs: seq<seq<Question>>, k: nat)
    requires IsRun(vs, steps, qs) && k < |steps| && Records(steps[k]) && Harmless(vs, steps, qs, k + 1)
    ensures Tree(vs[k].blocks) && vs[k + 1].lastTip == vs[k + 1].best == vs[k].best
    ensures TrueOf(CachesAt(vs, steps, qs, k + 1), vs[k].blocks, vs[k].best)
  {
    RunKeeps(vs, steps, qs, k);
    assert Legal(vs[k], steps[k]);
    TickKeeps(vs[k], steps[k], Taken(vs, steps, qs, k), Asked(vs, steps, qs, k));
  }

  // ----- Exactly which schedules are sound -----

  /** The best tips since the last record, round k included. */
  ghost function Visited(vs: seq<View>, steps: seq<Step>, k: nat): set<Hash>
    requires IsSchedule(vs, steps) && k < |steps|
  {
    (if k == 0 || Records(steps[k - 1]) then {} else Visited(vs, steps, k - 1)) + {vs[k].best}
  }

  /** Whatever is asked and when, every tick that reached the daemon leaves true verdicts. */
  ghost predicate AlwaysTrue(vs: seq<View>, steps: seq<Step>)
    requires IsSchedule(vs, steps)
  {
    forall qs {:trigger IsRun(vs, steps, qs)} :: IsRun(vs, steps, qs) ==> LeavesTruth(vs, steps, qs)
  }

  ghost predicate LeavesTruth(vs: seq<View>, steps: seq<Step>, qs: seq<seq<Question>>)
    requires IsRun(vs, steps, qs)
  {
    forall k :: 0 <= k < |steps| && Records(steps[k]) ==>
      Tree(vs[k].blocks) && TrueOf(CachesAt(vs, steps, qs, k + 1), vs[k].blocks, vs[k].best)
  }

  /** Every tick finds all tips since the last record in agreement with the best chain at the heights it keeps. */
  ghost predicate NoDetour(vs: seq<View>, steps: seq<Step>)
    requires IsSchedule(vs, steps)
  {
    forall k :: 0 <= k < |steps| && Records(steps[k]) ==>
      Tree(vs[k].blocks) && Agrees(vs[k], steps[k].answered, Visited(vs, steps, k))
  }

  lemma {:induction false} TakenIsVisited(vs: seq<View>, steps: seq<Step>, qs: seq<seq<Question>>, k: nat)
    requires IsRun(vs, steps, qs) && k < |steps|
    ensures Taken(vs, steps, qs, k) <= Visited(vs, steps, k)
  {
    if k > 0 {
      TakenIsVisited(vs, steps, qs, k - 1);
    }
  }

  /**
   Exactly which behaviours of the parent can never leave a false verdict: those where every tick
   sees all tips since the last record agree with the best chain wherever it keeps verdicts.
   */
  lemma AlwaysTrueIff(vs: seq<View>, steps: seq<Step>)
    requires IsSchedule(vs, steps)
    ensures AlwaysTrue(vs, steps) <==> NoDetour(vs, steps)
  {
    if NoDetour(vs, steps) {
      forall qs | IsRun(vs, steps, qs) ensures LeavesTruth(vs, steps, qs) {
        NoDetourIsSound(vs, steps, qs);
      }
    }
    if AlwaysTrue(vs, steps) {
      forall k | 0 <= k < |steps| && Records(steps[k])
        ensures Tree(vs[k].blocks) && Agrees(vs[k], steps[k].answered, Visited(vs, steps, k))
      {
        TruthNeedsAgreement(vs, steps, k);
      }
    }
  }

  lemma NoDetourIsSound(vs: seq<View>, steps: seq<Step>, qs: seq<seq<Question>>)
    requires IsRun(vs, steps, qs) && NoDetour(vs, steps)
    ensures LeavesTruth(vs, steps, qs)
  {
    hide Agrees, TrueOf, CachesAt, Taken, Visited;
    forall k | 0 <= k < |steps| && Records(steps[k])
      ensures Tree(vs[k].blocks) && Agrees(vs[k], steps[k].answered, Taken(vs, steps, qs, k))
    {
      TakenIsVisited(vs, steps, qs, k);
      FewerAgree(vs[k], steps[k].answered, Taken(vs, steps, qs, k), Visited(vs, steps, k));
    }
    forall k | 0 <= k < |steps| && Records(steps[k])
      ensures Tree(vs[k].blocks) && TrueOf(CachesAt(vs, steps, qs, k + 1), vs[k].blocks, vs[k].best)
    {
      RunsAreSound(vs, steps, qs, k);
    }
  }

  lemma FewerAgree(v: View, answered: nat -> bool, few: set<Hash>, many: set<Hash>)
    requires Tree(v.blocks) && few <= many && Agrees(v, answered, many)
    ensures Agrees(v, answered, few)
  {
  }

  lemma TruthNeedsAgreement(vs: seq<View>, steps: seq<Step>, k: nat)
    requires IsSchedule(vs, steps) && AlwaysTrue(vs, steps) && k < |steps| && Records(steps[k])
    ensures Tree(vs[k].blocks) && Agrees(vs[k], steps[k].answered, Visited(vs, steps, k))
  {
    hide Visited, LeavesTruth, IsRun;
    assert Legal(vs[k], steps[k]);
    forall t, h: nat | t in Visited(vs, steps, k) && Keeps(vs[k], steps[k].answered, h)
      ensures BlockAt(vs[k].blocks, t, h) == BlockAt(vs[k].blocks, vs[k].best, h)
    {
      if BlockAt(vs[k].blocks, t, h) != BlockAt(vs[k].blocks, vs[k].best, h) {
        var qs := DetourLeavesFalsehood(vs, steps, k, t, h);
      }
    }
  }

  /** When a tip was the best one, and what was recorded then. */
  lemma {:induction false} VisitedWhen(vs: seq<View>, steps: seq<Step>, k: nat, t: Hash) returns (i: nat)
    requires IsSchedule(vs, steps) && k < |steps| && t in Visited(vs, steps, k)
    ensures i <= k && vs[i].best == t && forall j :: i <= j < k ==> !Records(steps[j])
  {
    if t == vs[k].best {
      i := k;
    } else {
      i := VisitedWhen(vs, steps, k - 1, t);
    }
  }

  lemma {:induction false} SinceThen(vs: seq<View>, steps: seq<Step>, i: nat, k: nat)
    requires IsSchedule(vs, steps) && i <= k < |steps| && forall j :: i <= j < k ==> !Records(steps[j])
    ensures Tree(vs[i].blocks) && vs[i].best in vs[i].blocks && vs[k].lastTip == vs[i].lastTip
    ensures Grows(vs[i].blocks, vs[k].blocks)
    decreases k
  {
    assert Legal(vs[k], steps[k]) && Legal(vs[i], steps[i]);
    if i < k {
      SinceThen(vs, steps, i, k - 1);
      assert Legal(vs[k - 1], steps[k - 1]);
    }
  }

  lemma {:induction false} RecordedIsKnown(vs: seq<View>, steps: seq<Step>, k: nat)
    requires IsSchedule(vs, steps) && k < |steps| && vs[k].lastTip != 0
    ensures vs[k].lastTip in vs[k].blocks
  {
    if k > 0 {
      assert Legal(vs[k - 1], steps[k - 1]);
      if !Records(steps[k - 1]) {
        RecordedIsKnown(vs, steps, k - 1);
      }
    }
  }

  /** The honest answer about an anchor whose block is known. */
  ghost function Told(v: View, a: Anchor): Question
    requires Tree(v.blocks) && v.best in v.blocks && a.hash in v.blocks
  {
    var confirmations := if OnChain(v.blocks, v.best, a.hash) then v.blocks[v.best].height - v.blocks[a.hash].height + 1 else -1;
    Question(a, 0, Answer(HeaderReply(Some(confirmations), Some(v.blocks[a.hash].height))), true)
  }

  /** Which anchor to ask about at a tip that disagrees with the best chain at height h. */
  lemma Misleading(v: View, answered: nat -> bool, before: View, h: nat) returns (a: Anchor)
    requires Tree(before.blocks) && before.best in before.blocks && Grows(before.blocks, v.blocks)
    requires v.best in v.blocks && before.lastTip == v.lastTip && (v.lastTip != 0 ==> before.lastTip in before.blocks)
    requires Keeps(v, answered, h) && BlockAt(v.blocks, before.best, h) != BlockAt(v.blocks, v.best, h)
    ensures a.height == h && a.hash in before.blocks && before.blocks[a.hash].height == h
    ensures Canonical(before.blocks, before.best, a) != Canonical(v.blocks, v.best, a)
  {
    GrowthKeeps(before.blocks, v.blocks, before.best, h);
    if BlockAt(v.blocks, before.best, h) != 0 {
      a := Anchor(h, BlockAt(v.blocks, before.best, h));
      BlockAtFacts(before.blocks, before.best, h);
    } else {
      a := Anchor(h, BlockAt(v.blocks, v.best, h));
      if v.best != v.lastTip {
        ForkHeightIsExact(v.blocks, v.best, v.lastTip, h);
      }
      GrowthKeeps(before.blocks, v.blocks, v.lastTip, h);
      BlockAtFacts(before.blocks, v.lastTip, h);
    }
  }

  lemma ToldIsHonest(v: View, a: Anchor)
    requires Tree(v.blocks) && v.best in v.blocks && a.hash in v.blocks && v.blocks[a.hash].height == a.height
    ensures AllHonest(v, [Told(v, a)])
    ensures AskAll(NO_VERDICTS, [Told(v, a)]) ==
              if Canonical(v.blocks, v.best, a) then Caches({a}, {}, map[]) else Caches({}, {a}, map[])
  {
    var q := Told(v, a);
    if OnChain(v.blocks, v.best, a.hash) && a.height <= v.blocks[v.best].height {
      BlockAtFacts(v.blocks, v.best, a.height);
    }
    assert Honest(v.blocks, v.best, a.hash, q.rpc);
    InterpretIsTruthful(v.blocks, v.best, a, q.rpc.reply);
    assert [q][..0] == [] && AskAll(NO_VERDICTS, []) == NO_VERDICTS;
    assert AskAll(NO_VERDICTS, [q]) == Check(NO_VERDICTS, a, 0, q.rpc, true).1;
  }

  /** One question in round i, and none in the others. */
  ghost function AskOnce(n: nat, i: nat, q: Question): (qs: seq<seq<Question>>)
    ensures |qs| == n && forall k :: 0 <= k < n ==> qs[k] == if k == i then [q] else []
  {
    seq(n, k => if k == i then [q] else [])
  }

  lemma {:induction false} AskedOnce(vs: seq<View>, steps: seq<Step>, i: nat, q: Question, k: nat)
    requires IsRun(vs, steps, AskOnce(|steps|, i, q)) && k < |steps| && i < |steps|
    requires forall j :: i <= j < k ==> !Records(steps[j])
    ensures CachesAt(vs, steps, AskOnce(|steps|, i, q), k) == if k <= i then NO_VERDICTS else AskAll(NO_VERDICTS, [q])
  {
    var qs := AskOnce(|steps|, i, q);
    if k > 0 {
      AskedOnce(vs, steps, i, q, k - 1);
      hide IsRun, Check;
      assert forall c :: AskAll(c, []) == c;
    }
  }

  /**
   A tip that disagrees at a height the tick keeps: one honest answer, taken while it was the best
   tip, is enough to leave a false verdict.
   */
  lemma DetourLeavesFalsehood(vs: seq<View>, steps: seq<Step>, k: nat, t: Hash, h: nat) returns (qs: seq<seq<Question>>)
    requires IsSchedule(vs, steps) && k < |steps| && Records(steps[k]) && Tree(vs[k].blocks)
    requires t in Visited(vs, steps, k) && Keeps(vs[k], steps[k].answered, h)
    requires BlockAt(vs[k].blocks, t, h) != BlockAt(vs[k].blocks, vs[k].best, h)
    ensures IsRun(vs, steps, qs) && !TrueOf(CachesAt(vs, steps, qs, k + 1), vs[k].blocks, vs[k].best)
    ensures !LeavesTruth(vs, steps, qs)
  {
    var i := VisitedWhen(vs, steps, k, t);
    SinceThen(vs, steps, i, k);
    if vs[i].lastTip != 0 {
      RecordedIsKnown(vs, steps, i);
    }
    assert Legal(vs[k], steps[k]);
    var a := Misleading(vs[k], steps[k].answered, vs[i], h);
    ToldIsHonest(vs[i], a);
    qs := AskOnce(|steps|, i, Told(vs[i], a));
    forall j | 0 <= j < |steps| ensures AllHonest(vs[j], qs[j]) {
      assert Legal(vs[j], steps[j]);
    }
    AskedOnce(vs, steps, i, Told(vs[i], a), k);
    assert i < k && qs[k] == [];
    var c := Asked(vs, steps, qs, k);
    var d := CachesAt(vs, steps, qs, k + 1);
    assert c == AskAll(NO_VERDICTS, [Told(vs[i], a)]);
    assert a in d.ok || a in d.stale;
  }

  /** As long as the parent only extends the recorded chain, nothing can go wrong. */
  lemma ExtensionsAgree(v: View, answered: nat -> bool, tips: set<Hash>)
    requires Tree(v.blocks) && v.lastTip in v.blocks && v.best in v.blocks && v.best != v.lastTip
    requires forall t :: t in tips ==> t in v.blocks && OnChain(v.blocks, t, v.lastTip)
    ensures Agrees(v, answered, tips)
  {
    forall t, h: nat | t in tips && Keeps(v, answered, h)
      ensures BlockAt(v.blocks, t, h) == BlockAt(v.blocks, v.best, h)
    {
      ForkHeightIsExact(v.blocks, v.best, v.lastTip, h);
      var f := v.blocks[v.lastTip].height;
      assert f <= v.blocks[t].height;
      AncestryFixed(v.blocks, t, f, h);
    }
  }

  /** With caches that are true of the best chain, a definitive verdict of a check is the truth. */
  lemma CheckIsTruthful(blocks: Blocks, best: Hash, c: Caches, a: Anchor, now: int, rpc: Rpc, synced: bool)
    requires Tree(blocks) && best in blocks && TrueOf(c, blocks, best)
    requires Honest(blocks, best, a.hash, rpc)
    ensures var (v, c') := Check(c, a, now, rpc, synced);
            && TrueOf(c', blocks, best)
            && (v.OK? ==> Canonical(blocks, best, a))
            && (!v.OK? && !v.NO_CONNECTION? ==> !Canonical(blocks, best, a))
  {
    if rpc.Answer? {
      InterpretIsTruthful(blocks, best, a, rpc.reply);
    }
  }

  /**
   A parent that leaves the recorded tip and comes back between two ticks: the tick sees no move
   and keeps what was cached in between.
   */
  lemma FlapLeavesFalseVerdict() returns (vs: seq<View>, steps: seq<Step>, qs: seq<seq<Question>>)
    ensures IsRun(vs, steps, qs) && !LeavesTruth(vs, steps, qs)
  {
    var blocks: Blocks := map[1 := Header(0, 0), 2 := Header(1, 1), 3 := Header(1, 1)];
    assert Linked(blocks, 1) && Linked(blocks, 2) && Linked(blocks, 3);
    var tick := Tick(true, _ => true);
    steps := [tick, Move(blocks, 3), Move(blocks, 2), tick];
    vs := [View(blocks, 2, 0), View(blocks, 2, 2), View(blocks, 3, 2), View(blocks, 2, 2), View(blocks, 2, 2)];
    assert 3 in Visited(vs, steps, 2) && 3 in Visited(vs, steps, 3);
    qs := DetourLeavesFalsehood(vs, steps, 3, 3, 1);
  }
}
