/**
 UpdatePosFinality of src/anchor.cpp: the checkpoint finality floor, recomputed on every
 watcher tick from the checkpoint commitments seen on the parent chain.  Each buried commitment
 is judged by asking the parent daemon, through the verdict caches.
 */
module Finality {
  import opened AnchorCache
  import opened AnchorWatch

  datatype PosCheckpoint = PosCheckpoint(seqHash: Hash, seqHeight: nat, btcHeight: nat, btcHash: Hash)

  /** The highest finalized block; height -1 with the null hash means there is none. */
  datatype Floor = Floor(height: int, hash: Hash)

  const NoFloor := Floor(-1, 0)

  /** The node's own blocks: the heights of all it knows, and the active chain by height. */
  datatype Local = Local(known: map<Hash, nat>, active: seq<Hash>)

  predicate OnActiveChain(l: Local, c: PosCheckpoint) {
    && c.seqHash in l.known && l.known[c.seqHash] == c.seqHeight
    && c.seqHeight < |l.active| && l.active[c.seqHeight] == c.seqHash
  }

  /** A commitment together with what the parent daemon said about it on this pass. */
  datatype Judged = Judged(checkpoint: PosCheckpoint, verdict: Verdict)

  predicate Buried(c: PosCheckpoint, btcTipHeight: int, depth: int) {
    btcTipHeight - c.btcHeight + 1 >= depth
  }

  /** The commitment is buried, on the parent's best chain, and names a block of our active chain. */
  predicate Qualifies(j: Judged, l: Local, btcTipHeight: int, depth: int) {
    Buried(j.checkpoint, btcTipHeight, depth) && j.verdict.OK? && OnActiveChain(l, j.checkpoint)
  }

  /** The commitment is buried and names the floor, but the daemon could not be asked about it. */
  predicate Undecided(j: Judged, floor: Floor, btcTipHeight: int, depth: int) {
    && Buried(j.checkpoint, btcTipHeight, depth) && j.verdict.NO_CONNECTION?
    && floor.height >= 0 && j.checkpoint.seqHeight == floor.height && j.checkpoint.seqHash == floor.hash
  }

  /** The alarm: a buried, canonical commitment to a block we do not have at a height we passed. */
  predicate Conflicts(j: Judged, l: Local, btcTipHeight: int, depth: int) {
    var c := j.checkpoint;
    && Buried(c, btcTipHeight, depth) && j.verdict.OK? && !OnActiveChain(l, c)
    && c.seqHeight < |l.active|
    && !(c.seqHash in l.known && l.known[c.seqHash] != c.seqHeight)
  }

  /** `f` is the highest qualifying checkpoint among those judged. */
  ghost predicate IsHighest(f: Floor, js: seq<Judged>, l: Local, btcTipHeight: int, depth: int) {
    && (forall j :: j in js && Qualifies(j, l, btcTipHeight, depth) ==> j.checkpoint.seqHeight <= f.height)
    && (f == NoFloor ||
        exists j :: && j in js && Qualifies(j, l, btcTipHeight, depth)
                    && f == Floor(j.checkpoint.seqHeight, j.checkpoint.seqHash))
  }

  /** The order in which commitments are visited, and how often, does not matter. */
  lemma HighestIsUnique(f: Floor, js: seq<Judged>, g: Floor, ks: seq<Judged>, l: Local, btcTipHeight: int, depth: int)
    requires forall j :: j in js <==> j in ks
    requires IsHighest(f, js, l, btcTipHeight, depth) && IsHighest(g, ks, l, btcTipHeight, depth)
    ensures f == g
  {
  }

  /** A pass holds the floor: it would retreat, and a commitment to it is undecided. */
  ghost predicate Held(floor: Floor, js: seq<Judged>, l: Local, btcTipHeight: int, depth: int) {
    && AnyUndecided(floor, js, btcTipHeight, depth)
    && forall j :: j in js && Qualifies(j, l, btcTipHeight, depth) ==> j.checkpoint.seqHeight < floor.height
  }

  ghost predicate AnyUndecided(floor: Floor, js: seq<Judged>, btcTipHeight: int, depth: int) {
    exists j :: j in js && Undecided(j, floor, btcTipHeight, depth)
  }

  lemma OneMoreJudged(floor: Floor, best: Floor, js: seq<Judged>, j: Judged, l: Local, btcTipHeight: int, depth: int)
    requires IsHighest(best, js, l, btcTipHeight, depth)
    ensures AnyUndecided(floor, js + [j], btcTipHeight, depth) <==>
              AnyUndecided(floor, js, btcTipHeight, depth) || Undecided(j, floor, btcTipHeight, depth)
    ensures var c := j.checkpoint;
            IsHighest(if Qualifies(j, l, btcTipHeight, depth) && c.seqHeight > best.height then Floor(c.seqHeight, c.seqHash)
                      else best, js + [j], l, btcTipHeight, depth)
  {
    assert forall k :: k in js + [j] <==> k in js || k == j;
  }

  lemma NothingJudged(floor: Floor, l: Local, btcTipHeight: int, depth: int)
    ensures IsHighest(NoFloor, [], l, btcTipHeight, depth) && !AnyUndecided(floor, [], btcTipHeight, depth)
  {
  }

  lemma HeldMeansLower(floor: Floor, best: Floor, js: seq<Judged>, l: Local, btcTipHeight: int, depth: int)
    requires IsHighest(best, js, l, btcTipHeight, depth)
    ensures Held(floor, js, l, btcTipHeight, depth) <==>
              AnyUndecided(floor, js, btcTipHeight, depth) && best.height < floor.height
  {
  }

  /** The conflicting commitments in the order they were visited. */
  function ConflictList(js: seq<Judged>, l: Local, btcTipHeight: int, depth: int): seq<PosCheckpoint> {
    if js == [] then [] else
    var init, last := js[..|js| - 1], js[|js| - 1];
    ConflictList(init, l, btcTipHeight, depth) +
    if Conflicts(last, l, btcTipHeight, depth) then [last.checkpoint] else []
  }

  // ----- Commitments and the parent chain -----

  function Commitment(c: PosCheckpoint): Anchor {
    Anchor(c.btcHeight, c.btcHash)
  }

  /** The buried candidates, in order: those that are judged. */
  function BuriedOnes(cs: seq<PosCheckpoint>, btcTipHeight: int, depth: int): seq<PosCheckpoint> {
    if cs == [] then [] else
    var init, last := cs[..|cs| - 1], cs[|cs| - 1];
    BuriedOnes(init, btcTipHeight, depth) + if Buried(last, btcTipHeight, depth) then [last] else []
  }

  lemma BuriedNext(cs: seq<PosCheckpoint>, i: nat, btcTipHeight: int, depth: int)
    requires i < |cs|
    ensures BuriedOnes(cs[..i + 1], btcTipHeight, depth) ==
            BuriedOnes(cs[..i], btcTipHeight, depth) + if Buried(cs[i], btcTipHeight, depth) then [cs[i]] else []
  {
    assert cs[..i + 1][..i] == cs[..i];
  }

  lemma {:induction false} BuriedMembers(cs: seq<PosCheckpoint>, btcTipHeight: int, depth: int)
    ensures forall c :: c in BuriedOnes(cs, btcTipHeight, depth) <==> c in cs && Buried(c, btcTipHeight, depth)
  {
    if cs != [] {
      BuriedMembers(cs[..|cs| - 1], btcTipHeight, depth);
      assert cs == cs[..|cs| - 1] + [cs[|cs| - 1]];
    }
  }

  /** A definitive verdict is the truth about the parent's best chain. */
  ghost predicate Truthful(blocks: Blocks, best: Hash, j: Judged)
    requires Tree(blocks)
  {
    && (j.verdict.OK? ==> Canonical(blocks, best, Commitment(j.checkpoint)))
    && (!j.verdict.OK? && !j.verdict.NO_CONNECTION? ==> !Canonical(blocks, best, Commitment(j.checkpoint)))
  }

  /** The judgements are about exactly these checkpoints, in order, and say the truth if anything. */
  ghost predicate Judges(js: seq<Judged>, cs: seq<PosCheckpoint>, blocks: Blocks, best: Hash)
    requires Tree(blocks)
  {
    |js| == |cs| && forall i :: 0 <= i < |js| ==> js[i].checkpoint == cs[i] && Truthful(blocks, best, js[i])
  }

  lemma JudgesNext(js: seq<Judged>, cs: seq<PosCheckpoint>, blocks: Blocks, best: Hash, j: Judged)
    requires Tree(blocks) && Judges(js, cs, blocks, best) && Truthful(blocks, best, j)
    ensures Judges(js + [j], cs + [j.checkpoint], blocks, best)
  {
  }

  /** At least `depth` deep, and the parent block that carries the commitment is on the parent's best chain. */
  ghost predicate Committed(c: PosCheckpoint, blocks: Blocks, best: Hash, btcTipHeight: int, depth: int)
    requires Tree(blocks)
  {
    btcTipHeight - c.btcHeight + 1 >= depth && c.btcHash != 0 && BlockAt(blocks, best, c.btcHeight) == c.btcHash
  }

  /** A checkpoint that may hold the floor: committed, and the block is ours at that height. */
  ghost predicate Final(c: PosCheckpoint, blocks: Blocks, best: Hash, l: Local, btcTipHeight: int, depth: int)
    requires Tree(blocks)
  {
    && Committed(c, blocks, best, btcTipHeight, depth)
    && c.seqHash in l.known && l.known[c.seqHash] == c.seqHeight
    && c.seqHeight < |l.active| && l.active[c.seqHeight] == c.seqHash
  }

  /** Committed, but at that height, which we passed, we have another block; and ours is not known elsewhere. */
  ghost predicate Contradicts(c: PosCheckpoint, blocks: Blocks, best: Hash, l: Local, btcTipHeight: int, depth: int)
    requires Tree(blocks)
  {
    && Committed(c, blocks, best, btcTipHeight, depth)
    && c.seqHeight < |l.active|
    && (c.seqHash !in l.known || (l.known[c.seqHash] == c.seqHeight && l.active[c.seqHeight] != c.seqHash))
  }

  lemma FinalIs(c: PosCheckpoint, blocks: Blocks, best: Hash, l: Local, btcTipHeight: int, depth: int)
    requires Tree(blocks)
    ensures Final(c, blocks, best, l, btcTipHeight, depth) <==>
              Buried(c, btcTipHeight, depth) && OnActiveChain(l, c) && Canonical(blocks, best, Commitment(c))
    ensures Contradicts(c, blocks, best, l, btcTipHeight, depth) <==>
              Conflicts(Judged(c, OK), l, btcTipHeight, depth) && Canonical(blocks, best, Commitment(c))
  {
    hide BlockAt, Tree;
  }

  ghost predicate Names(c: PosCheckpoint, f: Floor) {
    f == Floor(c.seqHeight, c.seqHash)
  }

  /** `f` is the highest final checkpoint among the candidates, or there is none. */
  ghost predicate IsHighestFinal(f: Floor, cs: seq<PosCheckpoint>, blocks: Blocks, best: Hash, l: Local,
                                 btcTipHeight: int, depth: int)
    requires Tree(blocks)
  {
    && (forall c :: c in cs && Final(c, blocks, best, l, btcTipHeight, depth) ==> c.seqHeight <= f.height)
    && (f == NoFloor || exists c :: c in cs && Final(c, blocks, best, l, btcTipHeight, depth) && Names(c, f))
  }

  /** Whether a candidate was judged definitively. */
  ghost predicate Decided(js: seq<Judged>, c: PosCheckpoint) {
    forall j :: j in js && j.checkpoint == c ==> !j.verdict.NO_CONNECTION?
  }

  /** What the highest qualifying judgement says about the parent chain. */
  lemma HighestIsFinal(f: Floor, js: seq<Judged>, cs: seq<PosCheckpoint>, blocks: Blocks, best: Hash, l: Local,
                       btcTipHeight: int, depth: int)
    requires Tree(blocks) && Judges(js, BuriedOnes(cs, btcTipHeight, depth), blocks, best)
    requires IsHighest(f, js, l, btcTipHeight, depth)
    ensures f == NoFloor || exists c :: c in cs && Final(c, blocks, best, l, btcTipHeight, depth) && Names(c, f)
    ensures forall c :: c in cs && Final(c, blocks, best, l, btcTipHeight, depth) && Decided(js, c) ==> c.seqHeight <= f.height
  {
    hide Canonical, BuriedOnes, OnActiveChain, Final;
    BuriedMembers(cs, btcTipHeight, depth);
    var bs := BuriedOnes(cs, btcTipHeight, depth);
    if f != NoFloor {
      var j :| j in js && Qualifies(j, l, btcTipHeight, depth) && f == Floor(j.checkpoint.seqHeight, j.checkpoint.seqHash);
      var i :| 0 <= i < |js| && js[i] == j;
      assert bs[i] in bs;
      FinalIs(j.checkpoint, blocks, best, l, btcTipHeight, depth);
      assert Final(j.checkpoint, blocks, best, l, btcTipHeight, depth) && Names(j.checkpoint, f);
    }
    forall c | c in cs && Final(c, blocks, best, l, btcTipHeight, depth) && Decided(js, c) ensures c.seqHeight <= f.height {
      FinalIs(c, blocks, best, l, btcTipHeight, depth);
      assert c in bs;
      var i :| 0 <= i < |bs| && bs[i] == c;
      assert js[i] in js && Truthful(blocks, best, js[i]);
      assert Qualifies(js[i], l, btcTipHeight, depth);
    }
  }

  /** If the floor would retreat and is not held, every buried commitment to it was judged, and none holds it. */
  lemma RetreatWasJudged(was: Floor, now: Floor, js: seq<Judged>, cs: seq<PosCheckpoint>, blocks: Blocks, best: Hash, l: Local,
                         btcTipHeight: int, depth: int)
    requires Tree(blocks) && Judges(js, BuriedOnes(cs, btcTipHeight, depth), blocks, best)
    requires IsHighest(now, js, l, btcTipHeight, depth) && now.height < was.height
    requires !Held(was, js, l, btcTipHeight, depth)
    ensures forall c :: c in cs && btcTipHeight - c.btcHeight + 1 >= depth && Names(c, was) ==>
              Decided(js, c) && !Final(c, blocks, best, l, btcTipHeight, depth)
  {
    hide Canonical, BuriedOnes, OnActiveChain, Final;
    HighestIsFinal(now, js, cs, blocks, best, l, btcTipHeight, depth);
    assert forall k :: k in js && Qualifies(k, l, btcTipHeight, depth) ==> k.checkpoint.seqHeight < was.height;
    forall c | c in cs && Buried(c, btcTipHeight, depth) && Names(c, was)
      ensures Decided(js, c) && !Final(c, blocks, best, l, btcTipHeight, depth)
    {
      assert forall j :: j in js && j.checkpoint == c && j.verdict.NO_CONNECTION? ==> Undecided(j, was, btcTipHeight, depth);
      assert Decided(js, c);
      assert Final(c, blocks, best, l, btcTipHeight, depth) ==> c.seqHeight <= now.height;
    }
  }

  class FinalityState {
    var floor: Floor
    var conflicts: seq<PosCheckpoint>

    constructor ()
      ensures floor == NoFloor && conflicts == []
    {
      floor, conflicts := NoFloor, [];
    }

    /**
     The floor tracks the highest final checkpoint, rising or retreating, except that a retreat is
     held back while a commitment to the floor is undecided.  It retreats only when every buried
     commitment to it was judged and is off the parent's best chain or names a block that we left.
     */
    method UpdatePosFinality(w: Watcher, cs: seq<PosCheckpoint>, l: Local, btcTipHeight: int, depth: int)
      returns (ghost js: seq<Judged>)
      requires w.Valid()
      modifies this, w.state, w`calls
      ensures w.Valid()
      ensures depth <= 0 ==> floor == old(floor) && conflicts == old(conflicts)
      ensures depth > 0 ==> Judges(js, BuriedOnes(cs, btcTipHeight, depth), w.blocks, w.best)
      ensures depth > 0 ==> forall j :: j in js && j.verdict.NO_CONNECTION? ==> w.Fails()
      ensures depth > 0 ==> conflicts == ConflictList(js, l, btcTipHeight, depth)
      ensures depth > 0 ==> forall c :: c in conflicts ==>
        c in cs && Contradicts(c, w.blocks, w.best, l, btcTipHeight, depth)
      ensures depth > 0 ==> forall c :: c in cs && Contradicts(c, w.blocks, w.best, l, btcTipHeight, depth) && Decided(js, c) ==>
        c in conflicts
      ensures depth > 0 && Held(old(floor), js, l, btcTipHeight, depth) ==>
        floor == old(floor) && exists c :: c in cs && Names(c, old(floor)) && !Decided(js, c)
      ensures depth > 0 && !Held(old(floor), js, l, btcTipHeight, depth) ==>
        && IsHighest(floor, js, l, btcTipHeight, depth)
        && (floor == NoFloor || exists c :: c in cs && Final(c, w.blocks, w.best, l, btcTipHeight, depth) && Names(c, floor))
      ensures depth > 0 ==> forall c :: c in cs && Final(c, w.blocks, w.best, l, btcTipHeight, depth) && Decided(js, c) ==>
        c.seqHeight <= floor.height
      ensures depth > 0 && !w.Fails() ==>
        && IsHighestFinal(floor, cs, w.blocks, w.best, l, btcTipHeight, depth)
        && forall c :: c in conflicts <==> c in cs && Contradicts(c, w.blocks, w.best, l, btcTipHeight, depth)
      ensures depth > 0 && floor.height < old(floor).height ==>
        forall c :: c in cs && btcTipHeight - c.btcHeight + 1 >= depth && Names(c, old(floor)) ==>
          Decided(js, c) && !Final(c, w.blocks, w.best, l, btcTipHeight, depth)
    {
      js := [];
      if depth <= 0 {
        return;
      }
      hide IsHighest, AnyUndecided, Judges, Truthful, Canonical, BuriedOnes, TrueOf, Honest, Tree, ConflictList, DescendantsFail,
           OnActiveChain, Final, Contradicts, Silent;
      var best := NoFloor;
      var undecided := false;
      var found := [];
      NothingJudged(floor, l, btcTipHeight, depth);
      NoneJudged(w.blocks, w.best, cs, l, btcTipHeight, depth);
      for i := 0 to |cs|
        invariant w.Valid() && floor == old(floor)
        invariant IsHighest(best, js, l, btcTipHeight, depth)
        invariant undecided == AnyUndecided(floor, js, btcTipHeight, depth)
        invariant found == ConflictList(js, l, btcTipHeight, depth)
        invariant Judges(js, BuriedOnes(cs[..i], btcTipHeight, depth), w.blocks, w.best)
        invariant forall j :: j in js && j.verdict.NO_CONNECTION? ==> w.Fails()
      {
        var c := cs[i];
        BuriedNext(cs, i, btcTipHeight, depth);
        if btcTipHeight - c.btcHeight + 1 < depth {
          continue;
        }
        var verdict := w.Check(Commitment(c));
        ghost var j := Judged(c, verdict);
        assert Truthful(w.blocks, w.best, j) by {
          JudgedTruth(w.blocks, w.best, j);
        }
        JudgesNext(js, BuriedOnes(cs[..i], btcTipHeight, depth), w.blocks, w.best, j);
        OneMoreJudged(floor, best, js, j, l, btcTipHeight, depth);
        OneMoreConflict(js, j, l, btcTipHeight, depth);
        js := js + [j];
        if !verdict.OK? {
          if verdict.NO_CONNECTION? && floor.height >= 0 && c.seqHeight == floor.height && c.seqHash == floor.hash {
            undecided := true;
          }
          continue;
        }
        var knownElsewhere := c.seqHash in l.known && l.known[c.seqHash] != c.seqHeight;
        if OnActiveChain(l, c) {
          if c.seqHeight > best.height {
            best := Floor(c.seqHeight, c.seqHash);
          }
        } else if c.seqHeight < |l.active| && !knownElsewhere {
          found := found + [c];
        }
      }
      assert cs[..|cs|] == cs;
      conflicts := found;
      ConflictsAreReal(js, cs, w.blocks, w.best, l, btcTipHeight, depth);
      HeldMeansLower(floor, best, js, l, btcTipHeight, depth);
      var holdFloor := best.height < floor.height && undecided;
      PassEnds(old(floor), best, js, cs, w, l, btcTipHeight, depth);
      if !holdFloor && best != floor {
        floor := best;
      }
    }
  }

  lemma JudgedTruth(blocks: Blocks, best: Hash, j: Judged)
    requires Tree(blocks)
    requires j.verdict.OK? ==> Canonical(blocks, best, Commitment(j.checkpoint))
    requires !j.verdict.OK? && !j.verdict.NO_CONNECTION? ==> !Canonical(blocks, best, Commitment(j.checkpoint))
    ensures Truthful(blocks, best, j)
  {
  }

  lemma NoneJudged(blocks: Blocks, best: Hash, cs: seq<PosCheckpoint>, l: Local, btcTipHeight: int, depth: int)
    requires Tree(blocks)
    ensures Judges([], BuriedOnes(cs[..0], btcTipHeight, depth), blocks, best)
    ensures ConflictList([], l, btcTipHeight, depth) == []
  {
  }

  lemma OneMoreConflict(js: seq<Judged>, j: Judged, l: Local, btcTipHeight: int, depth: int)
    ensures ConflictList(js + [j], l, btcTipHeight, depth) ==
            ConflictList(js, l, btcTipHeight, depth) + if Conflicts(j, l, btcTipHeight, depth) then [j.checkpoint] else []
  {
    assert (js + [j])[..|js|] == js;
  }

  lemma {:induction false} ConflictMembers(js: seq<Judged>, l: Local, btcTipHeight: int, depth: int)
    ensures forall c :: c in ConflictList(js, l, btcTipHeight, depth) <==>
              exists j :: j in js && j.checkpoint == c && Conflicts(j, l, btcTipHeight, depth)
  {
    if js != [] {
      var init, last := js[..|js| - 1], js[|js| - 1];
      ConflictMembers(init, l, btcTipHeight, depth);
      hide Conflicts;
      assert js == init + [last];
      forall c ensures c in ConflictList(js, l, btcTipHeight, depth) <==>
                         exists j :: j in js && j.checkpoint == c && Conflicts(j, l, btcTipHeight, depth)
      {
        if j :| j in js && j.checkpoint == c && Conflicts(j, l, btcTipHeight, depth) {
          assert j in init || j == last;
        }
      }
    }
  }

  /** The conflicts are those candidates that contradict our chain; a candidate that was judged is not missed. */
  lemma ConflictsAreReal(js: seq<Judged>, cs: seq<PosCheckpoint>, blocks: Blocks, best: Hash, l: Local,
                         btcTipHeight: int, depth: int)
    requires Tree(blocks) && Judges(js, BuriedOnes(cs, btcTipHeight, depth), blocks, best)
    ensures forall c :: c in ConflictList(js, l, btcTipHeight, depth) ==>
              c in cs && Contradicts(c, blocks, best, l, btcTipHeight, depth)
    ensures forall c :: c in cs && Contradicts(c, blocks, best, l, btcTipHeight, depth) && Decided(js, c) ==>
              c in ConflictList(js, l, btcTipHeight, depth)
  {
    hide Canonical, BuriedOnes, OnActiveChain, Contradicts, Final, ConflictList, Tree;
    ConflictMembers(js, l, btcTipHeight, depth);
    BuriedMembers(cs, btcTipHeight, depth);
    var bs := BuriedOnes(cs, btcTipHeight, depth);
    forall c | c in ConflictList(js, l, btcTipHeight, depth)
      ensures c in cs && Contradicts(c, blocks, best, l, btcTipHeight, depth)
    {
      var j :| j in js && j.checkpoint == c && Conflicts(j, l, btcTipHeight, depth);
      var i :| 0 <= i < |js| && js[i] == j;
      assert bs[i] in bs;
      FinalIs(c, blocks, best, l, btcTipHeight, depth);
    }
    forall c | c in cs && Contradicts(c, blocks, best, l, btcTipHeight, depth) && Decided(js, c)
      ensures c in ConflictList(js, l, btcTipHeight, depth)
    {
      FinalIs(c, blocks, best, l, btcTipHeight, depth);
      assert c in bs;
      var i :| 0 <= i < |bs| && bs[i] == c;
      assert js[i] in js && Truthful(blocks, best, js[i]);
      assert Conflicts(js[i], l, btcTipHeight, depth);
    }
  }

  /** The end of a pass: what the new floor would be, and what a retreat to it means. */
  lemma PassEnds(was: Floor, now: Floor, js: seq<Judged>, cs: seq<PosCheckpoint>, w: Watcher, l: Local,
                btcTipHeight: int, depth: int)
    requires w.Valid() && Judges(js, BuriedOnes(cs, btcTipHeight, depth), w.blocks, w.best)
    requires IsHighest(now, js, l, btcTipHeight, depth)
    requires forall j :: j in js && j.verdict.NO_CONNECTION? ==> w.Fails()
    ensures now == NoFloor || exists c :: c in cs && Final(c, w.blocks, w.best, l, btcTipHeight, depth) && Names(c, now)
    ensures forall c :: c in cs && Final(c, w.blocks, w.best, l, btcTipHeight, depth) && Decided(js, c) ==>
              c.seqHeight <= now.height
    ensures !w.Fails() ==> IsHighestFinal(now, cs, w.blocks, w.best, l, btcTipHeight, depth)
    ensures !w.Fails() ==> !AnyUndecided(was, js, btcTipHeight, depth) && forall c :: Decided(js, c)
    ensures Held(was, js, l, btcTipHeight, depth) ==>
      now.height < was.height && exists c :: c in cs && Names(c, was) && !Decided(js, c)
    ensures !Held(was, js, l, btcTipHeight, depth) && now.height < was.height ==>
      forall c :: c in cs && btcTipHeight - c.btcHeight + 1 >= depth && Names(c, was) ==>
        Decided(js, c) && !Final(c, w.blocks, w.best, l, btcTipHeight, depth)
  {
    hide IsHighest, Judges, Canonical, BuriedOnes, TrueOf, Honest, Tree, DescendantsFail, OnActiveChain, Final, Held, Silent;
    HighestIsFinal(now, js, cs, w.blocks, w.best, l, btcTipHeight, depth);
    HeldMeansLower(was, now, js, l, btcTipHeight, depth);
    if Held(was, js, l, btcTipHeight, depth) {
      HeldNames(was, js, cs, w.blocks, w.best, btcTipHeight, depth);
    }
    if !w.Fails() {
      assert forall c :: Decided(js, c);
    }
    if !Held(was, js, l, btcTipHeight, depth) && now.height < was.height {
      RetreatWasJudged(was, now, js, cs, w.blocks, w.best, l, btcTipHeight, depth);
    }
  }

  lemma HeldNames(was: Floor, js: seq<Judged>, cs: seq<PosCheckpoint>, blocks: Blocks, best: Hash, btcTipHeight: int, depth: int)
    requires Tree(blocks) && Judges(js, BuriedOnes(cs, btcTipHeight, depth), blocks, best)
    requires AnyUndecided(was, js, btcTipHeight, depth)
    ensures exists c :: c in cs && Names(c, was) && !Decided(js, c)
  {
    hide BuriedOnes, Truthful, Tree;
    BuriedMembers(cs, btcTipHeight, depth);
    var j :| j in js && Undecided(j, was, btcTipHeight, depth);
    var i :| 0 <= i < |js| && js[i] == j;
    assert BuriedOnes(cs, btcTipHeight, depth)[i] in BuriedOnes(cs, btcTipHeight, depth);
    assert j.checkpoint in cs && Names(j.checkpoint, was) && !Decided(js, j.checkpoint);
  }
}
