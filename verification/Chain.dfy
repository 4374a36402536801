/**
 The block index of src/chain.cpp: skip pointers, the active chain and fork finding.

 A CBlockIndex is an object whose parent, height and skip pointer are fixed once it is
 linked into the index, so here they are constants that the constructor fills in.
 Everything the skip list and the chain vector compute is compared with the plain walk
 along `pprev`.
 */
module Chain {
  import opened Power

  // ----- Heights to skip to -----

  /** n & (n - 1): the lowest 1 bit of n turned into 0. */
  function InvertLowestOne(n: nat): (r: nat)
    ensures n > 0 ==> r < n
  {
    if n == 0 then 0
    else if n % 2 == 1 then n - 1
    else 2 * InvertLowestOne(n / 2)
  }

  /** The number is odd times a power of two, and that power is taken off. */
  lemma {:induction false} LowestOneIsOff(n: nat) returns (odd: nat, k: nat)
    requires n > 0
    ensures odd % 2 == 1 && n == odd * Pow(2, k) && InvertLowestOne(n) == (odd - 1) * Pow(2, k)
  {
    if n % 2 == 1 {
      odd, k := n, 0;
    } else {
      var j;
      odd, j := LowestOneIsOff(n / 2);
      k := j + 1;
      MulAssoc(odd, Pow(2, j), 2);
      MulAssoc(odd - 1, Pow(2, j), 2);
    }
  }

  function GetSkipHeight(height: nat): (r: nat)
    ensures height > 0 ==> r < height
    ensures height == 0 ==> r == 0
  {
    if height < 2 then 0
    else if height % 2 == 1 then InvertLowestOne(InvertLowestOne(height - 1)) + 1
    else InvertLowestOne(height)
  }

  // ----- The block tree -----

  class BlockIndex {
    const nHeight: nat
    const pprev: BlockIndex?
    const pskip: BlockIndex?

    /** A new block; `build` says whether BuildSkip is called for it. */
    constructor (pprev: BlockIndex?, build: bool)
      requires pprev != null ==> pprev.WellFormed() && pprev.Built()
      ensures this.pprev == pprev && WellFormed() && Built()
      ensures pskip == if pprev == null || !build then null else Ancestor(GetSkipHeight(nHeight))
    {
      this.pprev := pprev;
      this.nHeight := if pprev == null then 0 else pprev.nHeight + 1;
      this.pskip := null;
      if pprev != null && build {
        var skip := pprev.GetAncestor(GetSkipHeight(pprev.nHeight + 1));
        this.pskip := skip;
      }
    }

    ghost predicate WellFormed()
      decreases nHeight
    {
      if pprev == null then nHeight == 0 else pprev.nHeight + 1 == nHeight && pprev.WellFormed()
    }

    /** The ancestor at a height by walking along `pprev`. */
    ghost function Ancestor(h: nat): (b: BlockIndex)
      requires WellFormed() && h <= nHeight
      ensures b.WellFormed() && b.nHeight == h
      decreases nHeight
    {
      if h == nHeight then this else pprev.Ancestor(h)
    }

    /** Every skip pointer from here down is unset or leads where it should. */
    ghost predicate Built()
      requires WellFormed()
      decreases nHeight
    {
      && (pskip == null || pskip == Ancestor(GetSkipHeight(nHeight)))
      && (pprev != null ==> pprev.Built())
    }

    method GetAncestor(height: int) returns (r: BlockIndex?)
      requires WellFormed() && Built()
      ensures r == if 0 <= height <= nHeight then Ancestor(height) else null
    {
      if height > nHeight || height < 0 {
        return null;
      }
      var walk, heightWalk := this, nHeight;
      while heightWalk > height
        invariant height <= heightWalk <= nHeight
        invariant walk == Ancestor(heightWalk)
      {
        AncestorsBuilt(this, heightWalk);
        var heightSkip := GetSkipHeight(heightWalk);
        var heightSkipPrev := GetSkipHeight(heightWalk - 1);
        if walk.pskip != null &&
           (heightSkip == height ||
            (heightSkip > height && !(heightSkipPrev < heightSkip - 2 && heightSkipPrev >= height))) {
          AncestorTransitive(this, heightWalk, heightSkip);
          walk, heightWalk := walk.pskip, heightSkip;
        } else {
          AncestorTransitive(this, heightWalk, heightWalk - 1);
          walk, heightWalk := walk.pprev, heightWalk - 1;
        }
      }
      return walk;
    }
  }

  lemma {:induction false} AncestorTransitive(b: BlockIndex, h: nat, h': nat)
    requires b.WellFormed() && h' <= h <= b.nHeight
    ensures b.Ancestor(h).Ancestor(h') == b.Ancestor(h')
    decreases b.nHeight
  {
    if h < b.nHeight {
      AncestorTransitive(b.pprev, h, h');
    }
  }

  /** The parent of an ancestor is the next ancestor. */
  lemma AncestorParent(b: BlockIndex, h: nat)
    requires b.WellFormed() && h <= b.nHeight
    ensures b.Ancestor(b.nHeight) == b
    ensures b.Ancestor(h).pprev == if h == 0 then null else b.Ancestor(h - 1)
  {
    if h > 0 {
      AncestorTransitive(b, h, h - 1);
    }
  }

  lemma {:induction false} AncestorsBuilt(b: BlockIndex, h: nat)
    requires b.WellFormed() && b.Built() && h <= b.nHeight
    ensures b.Ancestor(h).Built()
    decreases b.nHeight
  {
    if h < b.nHeight {
      AncestorsBuilt(b.pprev, h);
    }
  }

  // ----- The active chain -----

  /** The blocks from genesis to `b`, in order. */
  ghost function Path(b: BlockIndex?): (p: seq<BlockIndex?>)
    requires b != null ==> b.WellFormed()
    ensures |p| == if b == null then 0 else b.nHeight + 1
    decreases if b == null then 0 else b.nHeight + 1
  {
    if b == null then [] else Path(b.pprev) + [b]
  }

  lemma {:induction false} PathAt(b: BlockIndex, h: nat)
    requires b.WellFormed() && h <= b.nHeight
    ensures Path(b)[h] == b.Ancestor(h)
    ensures Path(b)[..h + 1] == Path(b.Ancestor(h))
    decreases b.nHeight
  {
    if h < b.nHeight {
      PathAt(b.pprev, h);
      assert Path(b)[..h + 1] == Path(b.pprev)[..h + 1];
    } else {
      assert Path(b)[..h + 1] == Path(b);
    }
  }

  /** Two paths that agree at a height agree below it. */
  lemma SharedPath(a: BlockIndex, b: BlockIndex, h: nat)
    requires a.WellFormed() && b.WellFormed() && h <= a.nHeight && h <= b.nHeight
    requires Path(a)[h] == b.Ancestor(h)
    ensures forall i :: 0 <= i <= h ==> Path(a)[i] == Path(b)[i]
  {
    PathAt(a, h);
    PathAt(b, h);
    forall i | 0 <= i <= h
      ensures Path(a)[i] == Path(b)[i]
    {
      assert Path(a)[i] == Path(a)[..h + 1][i] && Path(b)[i] == Path(b)[..h + 1][i];
    }
  }

  /** `a` is `b` or lies below it. */
  ghost predicate IsAncestor(a: BlockIndex, b: BlockIndex)
    requires b.WellFormed()
  {
    a.nHeight <= b.nHeight && b.Ancestor(a.nHeight) == a
  }

  /** Cut or filled up to `n` slots. */
  function Resized(chain: seq<BlockIndex?>, n: nat): (r: seq<BlockIndex?>)
    ensures |r| == n && forall i :: 0 <= i < n && i < |chain| ==> r[i] == chain[i]
    ensures forall i :: |chain| <= i < n ==> r[i] == null
  {
    if n <= |chain| then chain[..n] else chain + seq(n - |chain|, _ => null)
  }

  class CChain {
    var vChain: seq<BlockIndex?>
    ghost var tip: BlockIndex?

    ghost predicate Valid()
      reads this
    {
      && (tip != null ==> tip.WellFormed())
      && vChain == Path(tip)
    }

    constructor ()
      ensures Valid() && tip == null
    {
      vChain, tip := [], null;
    }

    function Height(): int
      reads this
    {
      |vChain| - 1
    }

    function At(h: int): BlockIndex?
      reads this
    {
      if 0 <= h < |vChain| then vChain[h] else null
    }

    predicate Contains(b: BlockIndex)
      reads this
    {
      At(b.nHeight) == b
    }

    /** Membership in the chain vector is being an ancestor of the tip. */
    lemma ContainsIsAncestor(b: BlockIndex)
      requires Valid()
      ensures Contains(b) <==> tip != null && IsAncestor(b, tip)
    {
      if tip != null && b.nHeight <= tip.nHeight {
        PathAt(tip, b.nHeight);
      }
    }

    /**
     The walk stops at the first block that is already in place; the vector is
     nevertheless the whole path of the new tip.
     */
    method SetTip(pindex: BlockIndex?)
      requires Valid()
      requires pindex != null ==> pindex.WellFormed()
      modifies this
      ensures Valid() && tip == pindex
    {
      hide BlockIndex.Ancestor, BlockIndex.WellFormed, BlockIndex.Built, Path, Resized;
      ghost var oldTip := tip;
      tip := pindex;
      if pindex == null {
        vChain := [];
        return;
      }
      var n := pindex.nHeight + 1;
      vChain := Resized(vChain, n);
      var walk: BlockIndex? := pindex;
      ghost var h, was, path := pindex.nHeight, vChain, Path(pindex);
      AncestorParent(pindex, h);
      while walk != null && vChain[walk.nHeight] != walk
        invariant |vChain| == n && tip == pindex
        invariant -1 <= h < n
        invariant walk == if h < 0 then null else pindex.Ancestor(h)
        invariant forall i :: h < i < n ==> vChain[i] == path[i]
        invariant forall i :: 0 <= i <= h ==> vChain[i] == was[i]
        decreases h + 1
      {
        PathAt(pindex, h);
        vChain := vChain[walk.nHeight := walk];
        AncestorParent(pindex, h);
        walk, h := walk.pprev, h - 1;
      }
      if walk != null {
        SharedPath(oldTip, pindex, h);
      }
      assert vChain == path;
    }

    /** The highest block of the chain that is `pindex` or one of its ancestors. */
    method FindFork(pindex: BlockIndex?) returns (r: BlockIndex?)
      requires Valid()
      requires pindex != null ==> pindex.WellFormed() && pindex.Built()
      ensures r != null ==> pindex != null && tip != null && IsAncestor(r, pindex) && IsAncestor(r, tip)
      ensures forall a :: pindex != null && tip != null && IsAncestor(a, pindex) && IsAncestor(a, tip) ==>
                r != null && a.nHeight <= r.nHeight
    {
      hide BlockIndex.Ancestor, BlockIndex.WellFormed, BlockIndex.Built;
      if pindex == null {
        return null;
      }
      r := pindex;
      if pindex.nHeight > Height() {
        r := pindex.GetAncestor(Height());
      }
      ghost var h := if r == null then -1 else r.nHeight;
      AncestorParent(pindex, pindex.nHeight);
      assert tip != null ==> Height() == tip.nHeight;
      while r != null && !Contains(r)
        invariant -1 <= h <= pindex.nHeight
        invariant r == if h < 0 then null else pindex.Ancestor(h)
        invariant forall a :: tip != null && IsAncestor(a, pindex) && IsAncestor(a, tip) ==> a.nHeight <= h
        decreases h + 1
      {
        forall a | tip != null && IsAncestor(a, pindex) && IsAncestor(a, tip)
          ensures a.nHeight < h
        {
          ContainsIsAncestor(r);
        }
        AncestorParent(pindex, h);
        r, h := r.pprev, h - 1;
      }
      if r != null {
        ContainsIsAncestor(r);
      }
    }

    /** Use the chain vector if the block is on it, the skip list otherwise. */
    method StepBack(b: BlockIndex, h: nat) returns (r: BlockIndex)
      requires Valid()
      requires b.WellFormed() && b.Built() && h <= b.nHeight
      ensures r == b.Ancestor(h)
    {
      if Contains(b) {
        ContainsIsAncestor(b);
        PathAt(tip, h);
        AncestorTransitive(tip, b.nHeight, h);
        return At(h);
      }
      r := b.GetAncestor(h);
    }

    method GetLocator(start: BlockIndex?) returns (have: seq<BlockIndex>)
      requires Valid()
      requires start != null ==> start.WellFormed() && start.Built()
      requires tip != null ==> tip.Built()
      ensures have == Locator(if start == null then tip else start)
    {
      hide BlockIndex.Ancestor, BlockIndex.WellFormed, BlockIndex.Built, LocatorFrom, Locator, StepAfter;
      var nStep := 1;
      StepNext(0);
      have := [];
      var pindex := start;
      if pindex == null {
        pindex := At(Height());
        if tip != null {
          PathAt(tip, tip.nHeight);
        }
      }
      ghost var from := pindex;
      LocatorIs(from);
      if from != null {
        AncestorParent(from, from.nHeight);
      }
      while pindex != null
        invariant pindex != null ==> from != null && from.WellFormed() && from.Built() && IsAncestor(pindex, from)
        invariant nStep == StepAfter(|have|)
        invariant have + LocatorFrom(pindex, |have|) == Locator(from)
        decreases if pindex == null then 0 else pindex.nHeight + 1
      {
        LocatorNext(pindex, |have|);
        ghost var before := have;
        have := have + [pindex];
        if pindex.nHeight == 0 {
          break;
        }
        StepNext(|before|);
        var nHeight := Down(pindex.nHeight, nStep);
        AncestorTransitive(from, pindex.nHeight, nHeight);
        AncestorsBuilt(from, pindex.nHeight);
        pindex := StepBack(pindex, nHeight);
        if |have| > 10 {
          nStep := nStep * 2;
        }
      }
      LocatorEnds(|have|);
    }
  }

  /** How far the next entry of a locator lies below entry number `n - 1`, when n were added. */
  function StepAfter(n: nat): (r: nat)
    ensures r >= 1
  {
    if n <= 10 then 1 else 2 * StepAfter(n - 1)
  }

  function Down(h: nat, step: nat): nat {
    if h > step then h - step else 0
  }

  /** The locator entries from `b` on, when n were added before. */
  ghost function LocatorFrom(b: BlockIndex?, n: nat): seq<BlockIndex>
    requires b != null ==> b.WellFormed()
    decreases if b == null then 0 else b.nHeight + 1
  {
    if b == null then []
    else if b.nHeight == 0 then [b]
    else [b] + LocatorFrom(b.Ancestor(Down(b.nHeight, StepAfter(n))), n + 1)
  }

  ghost function Locator(b: BlockIndex?): seq<BlockIndex>
    requires b != null ==> b.WellFormed()
  {
    LocatorFrom(b, 0)
  }

  lemma StepNext(n: nat)
    ensures StepAfter(n + 1) == if n + 1 > 10 then 2 * StepAfter(n) else StepAfter(n)
    ensures StepAfter(0) == 1
  {
  }

  lemma LocatorIs(b: BlockIndex?)
    requires b != null ==> b.WellFormed()
    ensures Locator(b) == LocatorFrom(b, 0) && (b == null ==> Locator(b) == [])
  {
  }

  lemma LocatorEnds(n: nat)
    ensures LocatorFrom(null, n) == []
  {
  }

  lemma LocatorNext(b: BlockIndex, n: nat)
    requires b.WellFormed()
    ensures b.nHeight == 0 ==> LocatorFrom(b, n) == [b]
    ensures b.nHeight > 0 ==>
      LocatorFrom(b, n) == [b] + LocatorFrom(b.Ancestor(Down(b.nHeight, StepAfter(n))), n + 1)
  {
  }

  /**
   A locator starts at its block, ends at genesis and only names ancestors; each entry
   lies the current step below the one before; the step is one eleven times and then doubles.
   */
  lemma {:induction false} LocatorShape(b: BlockIndex, n: nat)
    requires b.WellFormed()
    ensures var l := LocatorFrom(b, n);
            && |l| > 0 && l[0] == b && l[|l| - 1].nHeight == 0
            && (forall i :: 0 <= i < |l| ==> IsAncestor(l[i], b))
            && (forall i :: 0 <= i < |l| - 1 ==> l[i + 1].nHeight == Down(l[i].nHeight, StepAfter(n + i)))
    decreases b.nHeight
  {
    hide *;
    LocatorNext(b, n);
    OwnAncestor(b);
    if b.nHeight > 0 {
      var h := Down(b.nHeight, StepAfter(n));
      DownBound(b.nHeight, n);
      var a := b.Ancestor(h);
      var l, tail := LocatorFrom(b, n), LocatorFrom(a, n + 1);
      LocatorShape(a, n + 1);
      forall i | 0 <= i < |l|
        ensures IsAncestor(l[i], b)
      {
        if i > 0 {
          AncestorOfAncestor(tail[i - 1], b, h);
        }
      }
      forall i | 0 <= i < |l| - 1
        ensures l[i + 1].nHeight == Down(l[i].nHeight, StepAfter(n + i))
      {
        if i > 0 {
          assert l[i] == tail[i - 1] && l[i + 1] == tail[i];
          assert n + 1 + (i - 1) == n + i;
        }
      }
    }
  }

  lemma OwnAncestor(b: BlockIndex)
    requires b.WellFormed()
    ensures IsAncestor(b, b)
  {
  }

  lemma DownBound(h: nat, n: nat)
    requires h > 0
    ensures Down(h, StepAfter(n)) < h
  {
    hide StepAfter;
  }

  lemma AncestorOfAncestor(c: BlockIndex, b: BlockIndex, h: nat)
    requires b.WellFormed() && h <= b.nHeight && IsAncestor(c, b.Ancestor(h))
    ensures IsAncestor(c, b)
  {
    AncestorTransitive(b, h, c.nHeight);
  }

  /** The highest block that both blocks descend from, if there is one. */
  method LastCommonAncestor(a: BlockIndex, b: BlockIndex) returns (r: BlockIndex?)
    requires a.WellFormed() && a.Built() && b.WellFormed() && b.Built()
    ensures r != null ==> IsAncestor(r, a) && IsAncestor(r, b)
    ensures forall c :: IsAncestor(c, a) && IsAncestor(c, b) ==> r != null && c.nHeight <= r.nHeight
  {
    hide BlockIndex.Ancestor, BlockIndex.WellFormed, BlockIndex.Built;
    var pa: BlockIndex?, pb: BlockIndex? := a, b;
    if a.nHeight > b.nHeight {
      pa := a.GetAncestor(b.nHeight);
    } else if b.nHeight > a.nHeight {
      pb := b.GetAncestor(a.nHeight);
    }
    ghost var h: int := pa.nHeight;
    AncestorParent(a, a.nHeight);
    AncestorParent(b, b.nHeight);
    while pa != pb && pa != null && pb != null
      invariant -1 <= h <= a.nHeight && h <= b.nHeight
      invariant pa == if h < 0 then null else a.Ancestor(h)
      invariant pb == if h < 0 then null else b.Ancestor(h)
      invariant forall c :: IsAncestor(c, a) && IsAncestor(c, b) ==> c.nHeight <= h
      decreases h + 1
    {
      AncestorParent(a, h);
      AncestorParent(b, h);
      pa, pb, h := pa.pprev, pb.pprev, h - 1;
    }
    return pa;
  }
}
