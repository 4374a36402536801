/**
 The UTXO cache of src/coins.cpp: a stack of write-back caches over a database.

 Every cache keeps, per key, an entry with DIRTY, FRESH and PEGIN flags.  The caches that
 the program links through `base` pointers are kept here bottom-up in one sequence, so
 `levels[0]` sits on the database and the last level is the cache a caller works on.
 The main result is that a stack of any depth behaves as a stack of flat maps.
 */
module Coins {

  /** A block or transaction hash; 0 is the null hash. */
  type Hash = nat

  datatype OutPoint = OutPoint(hash: Hash, n: nat)

  /** `Spent` is the nulled-out coin; `usage` is the memory held by its script. */
  datatype Coin = Spent | Unspent(content: int, usage: nat, unspendable: bool)

  /** The key of a cache entry; ordinary outputs use the null genesis hash. */
  datatype Key = Key(genesis: Hash, outpoint: OutPoint)

  datatype Entry = Entry(coin: Coin, isDirty: bool, isFresh: bool, isPegin: bool, peginSpent: bool)

  type Cache = map<Key, Entry>

  /** One CCoinsViewCache. */
  datatype Level = Level(cacheCoins: Cache, hashBlock: Hash, usage: int)

  /** The bottom view.  It may hold spent coins, as the unit tests' database does. */
  datatype Db = Db(coins: map<OutPoint, Coin>, pegins: set<Key>, best: Hash)

  const EmptyLevel := Level(map[], 0, 0)

  const BlankEntry := Entry(Spent, false, false, false, false)

  function Native(op: OutPoint): Key {
    Key(0, op)
  }

  function DynamicMemoryUsage(c: Coin): nat {
    if c.Spent? then 0 else c.usage
  }

  // ----- What a reader sees -----

  /** A plain coin database: the unspent coins and the spent peg-ins. */
  datatype Flat = Flat(coins: map<OutPoint, Coin>, pegins: set<Key>)

  function FlatCoin(f: Flat, op: OutPoint): Coin {
    if op in f.coins then f.coins[op] else Spent
  }

  function FlatAdd(f: Flat, op: OutPoint, coin: Coin): Flat
    requires !coin.Spent?
  {
    if coin.unspendable then f else f.(coins := f.coins[op := coin])
  }

  function FlatSpend(f: Flat, op: OutPoint): Flat {
    f.(coins := f.coins - {op})
  }

  function FlatPegin(f: Flat, key: Key, spent: bool): Flat {
    f.(pegins := if spent then f.pegins + {key} else f.pegins - {key})
  }

  ghost predicate FlatOk(f: Flat) {
    && (forall op :: op in f.coins ==> !f.coins[op].Spent?)
    && (forall key :: key in f.pegins ==> key.genesis != 0)
  }

  lemma FlatExt(f: Flat, g: Flat)
    requires FlatOk(f) && FlatOk(g)
    requires forall op :: FlatCoin(f, op) == FlatCoin(g, op)
    requires forall key: Key :: key.genesis != 0 ==> (key in f.pegins <==> key in g.pegins)
    ensures f == g
  {
    forall op
      ensures op in f.coins <==> op in g.coins
      ensures op in f.coins ==> f.coins[op] == g.coins[op]
    {
      assert FlatCoin(f, op) == FlatCoin(g, op);
    }
    assert f.coins == g.coins;
    assert f.pegins == g.pegins;
  }

  lemma SpendNothing(f: Flat, op: OutPoint)
    requires FlatOk(f) && FlatCoin(f, op).Spent?
    ensures FlatSpend(f, op) == f
  {
    assert f.coins - {op} == f.coins;
  }

  ghost function DbView(db: Db): Flat {
    Flat(map op | op in db.coins && !db.coins[op].Spent? :: db.coins[op],
         set key | key in db.pegins && key.genesis != 0)
  }

  lemma DbViewOk(db: Db)
    ensures FlatOk(DbView(db))
    ensures forall h :: DbView(db.(best := h)) == DbView(db)
  {
  }

  ghost function CoinThrough(below: Flat, m: Cache, op: OutPoint): Coin {
    if Native(op) in m then m[Native(op)].coin else FlatCoin(below, op)
  }

  ghost predicate PeginThrough(below: Flat, m: Cache, key: Key) {
    if key in m then m[key].peginSpent else key in below.pegins
  }

  /** A view seen through a cache map. */
  ghost function Overlay(below: Flat, m: Cache): Flat {
    var ops := below.coins.Keys + set key | key in m :: key.outpoint;
    Flat(map op | op in ops && !CoinThrough(below, m, op).Spent? :: CoinThrough(below, m, op),
         set key | key in below.pegins + m.Keys && key.genesis != 0 && PeginThrough(below, m, key))
  }

  lemma OverlayCoin(below: Flat, m: Cache, op: OutPoint)
    ensures FlatCoin(Overlay(below, m), op) == CoinThrough(below, m, op)
  {
    assert Native(op) in m ==> Native(op).outpoint == op;
  }

  lemma OverlayPegin(below: Flat, m: Cache, key: Key)
    requires key.genesis != 0
    ensures key in Overlay(below, m).pegins <==> PeginThrough(below, m, key)
  {
  }

  lemma OverlayFacts(below: Flat, m: Cache)
    ensures FlatOk(Overlay(below, m))
    ensures forall op :: FlatCoin(Overlay(below, m), op) == CoinThrough(below, m, op)
    ensures forall key: Key :: key.genesis != 0 ==> (key in Overlay(below, m).pegins <==> PeginThrough(below, m, key))
  {
    forall op ensures FlatCoin(Overlay(below, m), op) == CoinThrough(below, m, op) {
      OverlayCoin(below, m, op);
    }
  }

  /** The views through 0, 1, ... caches. */
  ghost function Views(db: Db, ls: seq<Level>): (vs: seq<Flat>)
    ensures |vs| == |ls| + 1
  {
    if ls == [] then [DbView(db)] else
    var vs := Views(db, ls[..|ls| - 1]);
    vs + [Overlay(vs[|ls| - 1], ls[|ls| - 1].cacheCoins)]
  }

  ghost function View(db: Db, ls: seq<Level>): Flat {
    Views(db, ls)[|ls|]
  }

  ghost function BestAt(db: Db, ls: seq<Level>): Hash {
    if ls == [] then db.best
    else if ls[|ls| - 1].hashBlock != 0 then ls[|ls| - 1].hashBlock
    else BestAt(db, ls[..|ls| - 1])
  }

  /** Remembering the best block that the view below reports changes no view's best block. */
  lemma {:induction false} BestFilled(db: Db, ls: seq<Level>, k: nat, j: nat)
    requires k < |ls| && j <= |ls| && ls[k].hashBlock == 0
    ensures var ls' := ls[k := ls[k].(hashBlock := BestAt(db, ls[..k]))];
            BestAt(db, ls'[..j]) == BestAt(db, ls[..j])
  {
    var ls' := ls[k := ls[k].(hashBlock := BestAt(db, ls[..k]))];
    if j > 0 {
      BestFilled(db, ls, k, j - 1);
      assert ls'[..j][..j - 1] == ls'[..j - 1] && ls[..j][..j - 1] == ls[..j - 1];
    }
  }

  // ----- The invariant of a cache relative to the view below it -----

  /** The five flag combinations that coins.h documents as valid for an ordinary coin. */
  predicate ValidCombination(e: Entry) {
    if e.coin.Spent? then e.isFresh != e.isDirty else e.isFresh ==> e.isDirty
  }

  predicate EntryOk(e: Entry, key: Key, below: Flat) {
    if key.genesis == 0 then
      && !e.isPegin
      && ValidCombination(e)
      && (!e.isDirty ==> e.coin == FlatCoin(below, key.outpoint))
      && (e.isFresh ==> FlatCoin(below, key.outpoint).Spent?)
    else
      && e.isPegin && e.coin.Spent?
      && (!e.isDirty ==> (e.peginSpent <==> key in below.pegins))
      && (e.isFresh ==> key !in below.pegins)
  }

  ghost predicate CacheOk(below: Flat, m: Cache) {
    forall key :: key in m ==> EntryOk(m[key], key, below)
  }

  ghost predicate LevelOk(below: Flat, l: Level) {
    CacheOk(below, l.cacheCoins) && l.usage == Usage(l.cacheCoins)
  }

  ghost predicate StackOk(db: Db, ls: seq<Level>) {
    ls == [] || (StackOk(db, ls[..|ls| - 1]) && LevelOk(View(db, ls[..|ls| - 1]), ls[|ls| - 1]))
  }

  lemma LevelOkHash(below: Flat, l: Level, h: Hash)
    ensures LevelOk(below, l.(hashBlock := h)) == LevelOk(below, l)
  {
  }

  lemma UsageDecides(below: Flat, l: Level, less: nat)
    requires LevelOk(below, l)
    ensures LevelOk(below, l.(usage := l.usage - less)) <==> less == 0
  {
  }

  /** The memory that the coins of a cache map hold. */
  ghost function Usage(m: Cache): nat {
    if m == map[] then 0 else
    var key :| key in m;
    DynamicMemoryUsage(m[key].coin) + Usage(m - {key})
  }

  lemma {:induction false} UsageRemove(m: Cache, key: Key)
    requires key in m
    ensures Usage(m) == DynamicMemoryUsage(m[key].coin) + Usage(m - {key})
    decreases |m|
  {
    var p :| p in m && Usage(m) == DynamicMemoryUsage(m[p].coin) + Usage(m - {p});
    if p != key {
      assert (m - {p}).Keys == m.Keys - {p} && (m - {key}).Keys == m.Keys - {key};
      UsageRemove(m - {p}, key);
      UsageRemove(m - {key}, p);
      assert m - {p} - {key} == m - {key} - {p};
    }
  }

  function UsageOf(m: Cache, key: Key): nat {
    if key in m then DynamicMemoryUsage(m[key].coin) else 0
  }

  lemma UsageUpdate(m: Cache, key: Key, e: Entry)
    ensures Usage(m[key := e]) == Usage(m) - UsageOf(m, key) + DynamicMemoryUsage(e.coin)
  {
    UsageRemove(m[key := e], key);
    assert m[key := e] - {key} == m - {key};
    if key in m {
      UsageRemove(m, key);
    } else {
      assert m - {key} == m;
    }
  }

  lemma {:induction false} LevelFacts(db: Db, ls: seq<Level>, k: nat)
    requires StackOk(db, ls) && k < |ls|
    ensures LevelOk(Views(db, ls)[k], ls[k]) && FlatOk(Views(db, ls)[k]) && FlatOk(Views(db, ls)[k + 1])
    ensures Views(db, ls)[k + 1] == Overlay(Views(db, ls)[k], ls[k].cacheCoins)
    decreases |ls|
  {
    var t := |ls| - 1;
    OverlayFacts(Views(db, ls[..t])[t], ls[t].cacheCoins);
    if k < t {
      LevelFacts(db, ls[..t], k);
    } else if t > 0 {
      LevelFacts(db, ls[..t], t - 1);
    }
  }

  lemma LastLevel(db: Db, ls: seq<Level>)
    requires ls != []
    ensures var t := |ls| - 1; var vs := Views(db, ls[..t]);
            && Views(db, ls) == vs + [Overlay(vs[t], ls[t].cacheCoins)]
            && (StackOk(db, ls) <==> StackOk(db, ls[..t]) && LevelOk(vs[t], ls[t]))
  {
    hide Overlay, LevelOk;
  }

  /** Any cache may be replaced by one that is consistent and shows the same, without effect above. */
  lemma {:induction false} LevelReplaced(db: Db, ls: seq<Level>, k: nat, l: Level)
    requires StackOk(db, ls) && k < |ls|
    requires LevelOk(Views(db, ls)[k], l)
    requires Overlay(Views(db, ls)[k], l.cacheCoins) == Views(db, ls)[k + 1]
    ensures StackOk(db, ls[k := l]) && Views(db, ls[k := l]) == Views(db, ls)
    decreases |ls|
  {
    hide *;
    var t, ls' := |ls| - 1, ls[k := l];
    LastLevel(db, ls);
    LastLevel(db, ls');
    if k < t {
      LevelReplaced(db, ls[..t], k, l);
      assert ls'[..t] == ls[..t][k := l];
    } else {
      assert ls'[..t] == ls[..t];
    }
  }

  lemma {:induction false} BottomView(db: Db, ls: seq<Level>)
    ensures Views(db, ls)[0] == DbView(db)
  {
    if ls != [] {
      BottomView(db, ls[..|ls| - 1]);
    }
  }

  lemma LevelPushed(db: Db, ls: seq<Level>, l: Level)
    requires StackOk(db, ls) && l.cacheCoins == map[] && l.usage == 0
    ensures StackOk(db, ls + [l]) && Views(db, ls + [l]) == Views(db, ls) + [View(db, ls)]
  {
    assert (ls + [l])[..|ls|] == ls;
    if ls != [] {
      LevelFacts(db, ls, |ls| - 1);
    }
    OverlayNothing(View(db, ls));
  }

  lemma LevelDropped(db: Db, ls: seq<Level>)
    requires StackOk(db, ls) && |ls| > 0
    ensures StackOk(db, ls[..|ls| - 1]) && Views(db, ls[..|ls| - 1]) == Views(db, ls)[..|ls|]
  {
  }

  lemma {:induction false} PrefixOk(db: Db, ls: seq<Level>, n: nat)
    requires StackOk(db, ls) && n <= |ls|
    ensures StackOk(db, ls[..n]) && Views(db, ls[..n]) == Views(db, ls)[..n + 1]
    decreases |ls|
  {
    if n == |ls| {
      assert ls[..n] == ls;
    } else {
      PrefixOk(db, ls[..|ls| - 1], n);
      assert ls[..|ls| - 1][..n] == ls[..n];
      LevelDropped(db, ls);
    }
  }

  /** The upper part of a stack may be put on any stack that shows the same at the joint. */
  lemma {:induction false} Reattached(db: Db, ls: seq<Level>, db': Db, mid: seq<Level>, n: nat)
    requires StackOk(db, ls) && n <= |ls| && StackOk(db', mid) && |mid| == n && View(db', mid) == Views(db, ls)[n]
    ensures StackOk(db', mid + ls[n..]) && Views(db', mid + ls[n..]) == Views(db', mid) + Views(db, ls)[n + 1..]
    decreases |ls|
  {
    hide Views, StackOk, LevelOk, Overlay, FlatOk;
    var vs, t := Views(db, ls), |ls| - 1;
    if n == |ls| {
      assert mid + ls[n..] == mid && vs[n + 1..] == [];
    } else {
      LevelDropped(db, ls);
      Reattached(db, ls[..t], db', mid, n);
      LevelFacts(db, ls, t);
      var lower := mid + ls[..t][n..];
      assert Views(db, ls[..t])[n + 1..] == vs[n + 1..t + 1];
      assert mid + ls[n..] == lower + [ls[t]];
      JointView(db', mid, vs, n, t);
      LevelAppended(db', lower, ls[t]);
      assert vs[n + 1..] == vs[n + 1..t + 1] + [vs[t + 1]];
    }
  }

  lemma LevelAppended(db: Db, ls: seq<Level>, l: Level)
    requires StackOk(db, ls) && LevelOk(View(db, ls), l)
    ensures StackOk(db, ls + [l]) && Views(db, ls + [l]) == Views(db, ls) + [Overlay(View(db, ls), l.cacheCoins)]
  {
    assert (ls + [l])[..|ls|] == ls;
    hide LevelOk, Overlay;
  }

  lemma JointView(db': Db, mid: seq<Level>, vs: seq<Flat>, n: nat, t: nat)
    requires |mid| == n <= t < |vs| && View(db', mid) == vs[n]
    ensures var all := Views(db', mid) + vs[n + 1..t + 1]; |all| == t + 1 && all[t] == vs[t]
  {
    hide Views;
  }

  lemma TopReplaced(db: Db, ls: seq<Level>, l: Level)
    requires StackOk(db, ls) && |ls| > 0
    ensures var t, vs := |ls| - 1, Views(db, ls);
            && (StackOk(db, ls[t := l]) <==> LevelOk(vs[t], l))
            && Views(db, ls[t := l]) == vs[t + 1 := Overlay(vs[t], l.cacheCoins)]
  {
    assert ls[|ls| - 1 := l][..|ls| - 1] == ls[..|ls| - 1];
  }

  // ----- One key of BatchWrite -----

  /** What a cache holds for one key. */
  datatype Slot = Absent | Present(entry: Entry)

  /** What the parent cache does with one entry of the child. */
  datatype Merged = Leave | Erase | Put(entry: Entry) | Misapplied

  function Lookup(m: Cache, key: Key): Slot {
    if key in m then Present(m[key]) else Absent
  }

  function MergeEntry(us: Slot, it: Entry): Merged {
    var gone := if it.isPegin then !it.peginSpent else it.coin.Spent?;
    if !it.isDirty then
      Leave
    else if us.Absent? then
      if it.isFresh && gone then Leave
      else if it.isPegin then Put(Entry(Spent, true, it.isFresh, true, it.peginSpent))
      else Put(Entry(it.coin, true, it.isFresh, false, false))
    else if it.isFresh && !us.entry.coin.Spent? then
      Misapplied
    else if us.entry.isFresh && gone then
      Erase
    else if it.isPegin then
      Put(us.entry.(peginSpent := it.peginSpent, isDirty := true))
    else
      Put(us.entry.(coin := it.coin, isDirty := true))
  }

  /** One entry of the child written into a cache, with its memory accounted for. */
  function WriteEntry(us: Level, key: Key, it: Entry): Level {
    match MergeEntry(Lookup(us.cacheCoins, key), it)
    case Erase => us.(cacheCoins := us.cacheCoins - {key}, usage := us.usage - UsageOf(us.cacheCoins, key))
    case Put(e) => us.(cacheCoins := us.cacheCoins[key := e],
                       usage := us.usage - UsageOf(us.cacheCoins, key) + DynamicMemoryUsage(e.coin))
    case _ => us
  }

  function AfterMerge(us: Slot, m: Merged): Slot {
    match m
    case Put(e) => Present(e)
    case Erase => Absent
    case _ => us
  }

  /** The child's entry is marked fresh although the parent has an unspent coin there. */
  ghost predicate Misused(m: Cache, child: Cache, key: Key) {
    key in child && MergeEntry(Lookup(m, key), child[key]).Misapplied?
  }

  /** Where a slot ends up once the entries `done` of the child are merged. */
  ghost function MergedSlotOf(m: Cache, child: Cache, done: set<Key>, key: Key): Slot {
    if key in done && key in child then AfterMerge(Lookup(m, key), MergeEntry(Lookup(m, key), child[key])) else Lookup(m, key)
  }

  ghost predicate MergedInto(m: Cache, child: Cache, done: set<Key>, m': Cache) {
    forall key :: Lookup(m', key) == MergedSlotOf(m, child, done, key)
  }

  lemma NothingMerged(m: Cache, child: Cache)
    ensures MergedInto(m, child, {}, m)
  {
  }

  lemma MisusedIs(m: Cache, child: Cache, key: Key)
    ensures Misused(m, child, key) <==> key in child && MergeEntry(Lookup(m, key), child[key]).Misapplied?
  {
  }

  lemma MergedNext(m: Cache, child: Cache, done: set<Key>, us: Level, key: Key)
    requires MergedInto(m, child, done, us.cacheCoins) && key in child && key !in done
    ensures MergeEntry(Lookup(us.cacheCoins, key), child[key]) == MergeEntry(Lookup(m, key), child[key])
    ensures MergedInto(m, child, done + {key}, WriteEntry(us, key, child[key]).cacheCoins)
    ensures WriteEntry(us, key, child[key]).hashBlock == us.hashBlock
  {
    assert Lookup(us.cacheCoins, key) == MergedSlotOf(m, child, done, key) == Lookup(m, key);
    hide MergeEntry;
    var m' := WriteEntry(us, key, child[key]).cacheCoins;
    forall k ensures Lookup(m', k) == MergedSlotOf(m, child, done + {key}, k) {
      assert Lookup(us.cacheCoins, k) == MergedSlotOf(m, child, done, k);
    }
  }

  function ShownCoin(s: Slot, below: Flat, key: Key): Coin {
    if s.Present? then s.entry.coin else FlatCoin(below, key.outpoint)
  }

  predicate ShownPegin(s: Slot, below: Flat, key: Key) {
    if s.Present? then s.entry.peginSpent else key in below.pegins
  }

  /** A cache that changed for one key only shows what the changed slot shows. */
  lemma OverlayOneKey(below: Flat, m: Cache, m': Cache, key: Key, it: Entry)
    requires forall q :: q != key ==> Lookup(m', q) == Lookup(m, q)
    requires if key.genesis == 0 then ShownCoin(Lookup(m', key), below, key) == it.coin
             else ShownPegin(Lookup(m', key), below, key) == it.peginSpent
    ensures Overlay(below, m') == Overlay(Overlay(below, m), map[key := it])
  {
    var f, g := Overlay(below, m'), Overlay(Overlay(below, m), map[key := it]);
    OverlayFacts(below, m);
    OverlayFacts(below, m');
    OverlayFacts(Overlay(below, m), map[key := it]);
    forall op
      ensures FlatCoin(f, op) == FlatCoin(g, op)
    {
      assert Native(op) != key ==> Lookup(m', Native(op)) == Lookup(m, Native(op));
    }
    forall q: Key | q.genesis != 0
      ensures q in f.pegins <==> q in g.pegins
    {
      assert q != key ==> Lookup(m', q) == Lookup(m, q);
    }
    FlatExt(f, g);
  }

  /**
   If the child's entry is consistent with what the parent shows, merging it reports no
   misapplied FRESH flag, keeps the parent consistent and makes it show the child's value.
   */
  lemma WriteEntryOk(below: Flat, us: Level, key: Key, it: Entry)
    requires FlatOk(below) && LevelOk(below, us)
    requires EntryOk(it, key, Overlay(below, us.cacheCoins))
    ensures !MergeEntry(Lookup(us.cacheCoins, key), it).Misapplied?
    ensures LevelOk(below, WriteEntry(us, key, it))
    ensures Overlay(below, WriteEntry(us, key, it).cacheCoins) == Overlay(Overlay(below, us.cacheCoins), map[key := it])
  {
    var m, m' := us.cacheCoins, WriteEntry(us, key, it).cacheCoins;
    var merged := MergeEntry(Lookup(m, key), it);
    assert key in m ==> EntryOk(m[key], key, below);
    MergedSlot(below, m, key, it);
    hide MergeEntry, EntryOk, Overlay, FlatOk, ShownCoin, ShownPegin, Usage;
    assert Lookup(m', key) == AfterMerge(Lookup(m, key), merged);
    OverlayOneKey(below, m, m', key, it);
    if merged.Erase? {
      UsageRemove(m, key);
    } else if merged.Put? {
      UsageUpdate(m, key, merged.entry);
    }
  }

  /** The slot after the merge is consistent and shows the child's value. */
  lemma MergedSlot(below: Flat, m: Cache, key: Key, it: Entry)
    requires key in m ==> EntryOk(m[key], key, below)
    requires EntryOk(it, key, Overlay(below, m))
    ensures var merged := MergeEntry(Lookup(m, key), it);
            var after := AfterMerge(Lookup(m, key), merged);
            && !merged.Misapplied? && (merged.Erase? ==> key in m)
            && (after.Present? ==> EntryOk(after.entry, key, below))
            && if key.genesis == 0 then ShownCoin(after, below, key) == it.coin else ShownPegin(after, below, key) == it.peginSpent
  {
    if key.genesis == 0 {
      OverlayCoin(below, m, key.outpoint);
      assert Native(key.outpoint) == key;
    } else {
      OverlayPegin(below, m, key);
    }
    hide Overlay;
  }

  /** Merging `key` next: its entry is still consistent, and both orders of overlaying agree. */
  lemma EntryOkOtherKey(f: Flat, child: Cache, rest: set<Key>, key: Key)
    requires FlatOk(f) && CacheOk(f, child)
    requires key in rest && rest <= child.Keys
    ensures EntryOk(child[key], key, Overlay(f, child - rest))
    ensures Overlay(Overlay(f, child - rest), map[key := child[key]]) == Overlay(f, child - (rest - {key}))
  {
    var a := child - rest;
    OverlayFacts(f, a);
    assert key.genesis == 0 ==> Native(key.outpoint) == key;
    OverlayOneKey(f, a, a[key := child[key]], key, child[key]);
    assert a[key := child[key]] == child - (rest - {key});
  }

  /** One entry of CCoinsViewDB::BatchWrite. */
  function WriteToDisk(db: Db, key: Key, it: Entry): Db {
    if !it.isDirty then db
    else if it.isPegin then db.(pegins := if it.peginSpent then db.pegins + {key} else db.pegins - {key})
    else if it.coin.Spent? then db.(coins := db.coins - {key.outpoint})
    else db.(coins := db.coins[key.outpoint := it.coin])
  }

  lemma WriteToDiskOk(db: Db, key: Key, it: Entry)
    requires EntryOk(it, key, DbView(db))
    ensures DbView(WriteToDisk(db, key, it)) == Overlay(DbView(db), map[key := it])
  {
    var f, g := DbView(WriteToDisk(db, key, it)), Overlay(DbView(db), map[key := it]);
    assert key.genesis == 0 ==> key == Native(key.outpoint);
    OverlayFacts(DbView(db), map[key := it]);
    FlatExt(f, g);
  }

  function AddEntry(l: Level, key: Key, e: Entry): Level {
    l.(cacheCoins := l.cacheCoins[key := e], usage := l.usage + DynamicMemoryUsage(e.coin))
  }

  /** An entry that repeats what lies below keeps the invariant and changes no view. */
  lemma QuietEntryOk(f: Flat, l: Level, key: Key, e: Entry)
    requires LevelOk(f, l) && key !in l.cacheCoins
    requires EntryOk(e, key, f)
    requires if key.genesis == 0 then e.coin == FlatCoin(f, key.outpoint) else e.peginSpent == (key in f.pegins)
    ensures LevelOk(f, AddEntry(l, key, e))
    ensures Overlay(f, AddEntry(l, key, e).cacheCoins) == Overlay(f, l.cacheCoins)
  {
    UsageUpdate(l.cacheCoins, key, e);
    OverlayFacts(f, l.cacheCoins);
    OverlayFacts(f, l.cacheCoins[key := e]);
    FlatExt(Overlay(f, l.cacheCoins[key := e]), Overlay(f, l.cacheCoins));
  }

  lemma OverlayNothing(f: Flat)
    requires FlatOk(f)
    ensures Overlay(f, map[]) == f
  {
    OverlayFacts(f, map[]);
    FlatExt(Overlay(f, map[]), f);
  }

  /** The entry that AddCoin leaves for a key. */
  function AddedEntry(us: Slot, coin: Coin, overwrite: bool): Entry {
    var e := if us.Present? then us.entry else BlankEntry;
    Entry(coin, true, e.isFresh || (!overwrite && !e.isDirty), e.isPegin, e.peginSpent)
  }

  /**
   AddCoin without `possible_overwrite` only looks at its own cache.  When it does not
   throw, the FRESH flag it sets is right exactly when the view lacks the coin.
   */
  lemma AddCoinFreshness(us: Slot, op: OutPoint, coin: Coin, overwrite: bool, below: Flat)
    requires us.Present? ==> EntryOk(us.entry, Native(op), below)
    requires !coin.Spent?
    requires overwrite || us.Absent? || us.entry.coin.Spent?
    ensures EntryOk(AddedEntry(us, coin, overwrite), Native(op), below) <==>
              (overwrite || ShownCoin(us, below, Native(op)).Spent?)
  {
  }

  function AddedTo(l: Level, op: OutPoint, coin: Coin, overwrite: bool): Level {
    l.(cacheCoins := l.cacheCoins[Native(op) := AddedEntry(Lookup(l.cacheCoins, Native(op)), coin, overwrite)],
       usage := l.usage - UsageOf(l.cacheCoins, Native(op)) + DynamicMemoryUsage(coin))
  }

  /** The cache after AddCoin: what it shows, and when it is still consistent. */
  lemma AddedLevel(below: Flat, l: Level, op: OutPoint, coin: Coin, overwrite: bool)
    requires FlatOk(below) && LevelOk(below, l) && !coin.Spent? && !coin.unspendable
    requires var us := Lookup(l.cacheCoins, Native(op)); overwrite || us.Absent? || us.entry.coin.Spent?
    ensures var m, shown := l.cacheCoins, Overlay(below, l.cacheCoins);
            var e := AddedEntry(Lookup(m, Native(op)), coin, overwrite);
            var usage := l.usage - UsageOf(m, Native(op)) + DynamicMemoryUsage(coin);
            && (LevelOk(below, l.(cacheCoins := m[Native(op) := e], usage := usage)) <==>
                overwrite || FlatCoin(shown, op).Spent?)
            && Overlay(below, m[Native(op) := e]) == FlatAdd(shown, op, coin)
  {
    var m, key := l.cacheCoins, Native(op);
    var e := AddedEntry(Lookup(m, key), coin, overwrite);
    UsageUpdate(m, key, e);
    OverlayFacts(below, m);
    OverlayFacts(below, m[key := e]);
    AddCoinFreshness(Lookup(m, key), op, coin, overwrite, below);
    assert CacheOk(below, m[key := e]) <==> EntryOk(e, key, below) by {
      assert key in m[key := e];
    }
    FlatExt(Overlay(below, m[key := e]), FlatAdd(Overlay(below, m), op, coin));
  }

  lemma ErasedTop(below: Flat, l: Level, key: Key)
    requires FlatOk(below) && LevelOk(below, l) && key in l.cacheCoins && key.genesis == 0
    ensures var m, c := l.cacheCoins - {key}, FlatCoin(below, key.outpoint);
            && LevelOk(below, l.(cacheCoins := m, usage := l.usage - UsageOf(l.cacheCoins, key)))
            && (c.Spent? ==> Overlay(below, m) == FlatSpend(Overlay(below, l.cacheCoins), key.outpoint))
            && (l.cacheCoins[key].coin == c ==> Overlay(below, m) == Overlay(below, l.cacheCoins))
  {
    UsageRemove(l.cacheCoins, key);
    ErasedView(below, l.cacheCoins, key);
  }

  lemma ErasedView(below: Flat, m: Cache, key: Key)
    requires FlatOk(below) && key in m && key.genesis == 0
    ensures var m', c := m - {key}, FlatCoin(below, key.outpoint);
            && (c.Spent? ==> Overlay(below, m') == FlatSpend(Overlay(below, m), key.outpoint))
            && (m[key].coin == c ==> Overlay(below, m') == Overlay(below, m))
  {
    var f, g, op := Overlay(below, m - {key}), Overlay(below, m), key.outpoint;
    OverlayFacts(below, m);
    OverlayFacts(below, m - {key});
    assert key == Native(op);
    assert forall o :: o != op ==> FlatCoin(f, o) == FlatCoin(g, o);
    if FlatCoin(below, op).Spent? {
      FlatExt(f, FlatSpend(g, op));
    }
    if m[key].coin == FlatCoin(below, op) {
      FlatExt(f, g);
    }
  }

  lemma MarkedTop(below: Flat, l: Level, op: OutPoint)
    requires FlatOk(below) && LevelOk(below, l) && Native(op) in l.cacheCoins && !l.cacheCoins[Native(op)].isFresh
    ensures var key := Native(op);
            var m := l.cacheCoins[key := l.cacheCoins[key].(isDirty := true, coin := Spent)];
            && LevelOk(below, l.(cacheCoins := m, usage := l.usage - UsageOf(l.cacheCoins, key)))
            && Overlay(below, m) == FlatSpend(Overlay(below, l.cacheCoins), op)
  {
    var key := Native(op);
    var e := l.cacheCoins[key].(isDirty := true, coin := Spent);
    assert EntryOk(l.cacheCoins[key], key, below);
    UsageUpdate(l.cacheCoins, key, e);
    OverlayFacts(below, l.cacheCoins);
    OverlayFacts(below, l.cacheCoins[key := e]);
    FlatExt(Overlay(below, l.cacheCoins[key := e]), FlatSpend(Overlay(below, l.cacheCoins), op));
  }

  /** A cache after an entry of it was spent. */
  function SpentLevel(l: Level, op: OutPoint): Level
    requires Native(op) in l.cacheCoins
  {
    var key := Native(op);
    var e := l.cacheCoins[key];
    l.(usage := l.usage - DynamicMemoryUsage(e.coin),
       cacheCoins := if e.isFresh then l.cacheCoins - {key} else l.cacheCoins[key := e.(isDirty := true, coin := Spent)])
  }

  lemma SpentTop(below: Flat, l: Level, op: OutPoint)
    requires FlatOk(below) && LevelOk(below, l) && Native(op) in l.cacheCoins
    ensures LevelOk(below, SpentLevel(l, op))
    ensures Overlay(below, SpentLevel(l, op).cacheCoins) == FlatSpend(Overlay(below, l.cacheCoins), op)
  {
    var key := Native(op);
    assert EntryOk(l.cacheCoins[key], key, below);
    hide Overlay, FlatOk, Usage;
    if l.cacheCoins[key].isFresh {
      ErasedTop(below, l, key);
    } else {
      MarkedTop(below, l, op);
    }
  }

  lemma PeginTop(below: Flat, l: Level, key: Key, e: Entry)
    requires FlatOk(below) && LevelOk(below, l) && key.genesis != 0
    requires EntryOk(e, key, below)
    ensures var m := l.cacheCoins[key := e];
            && LevelOk(below, l.(cacheCoins := m))
            && Overlay(below, m) == FlatPegin(Overlay(below, l.cacheCoins), key, e.peginSpent)
  {
    assert key in l.cacheCoins ==> EntryOk(l.cacheCoins[key], key, below);
    UsageUpdate(l.cacheCoins, key, e);
    OverlayFacts(below, l.cacheCoins);
    OverlayFacts(below, l.cacheCoins[key := e]);
    FlatExt(Overlay(below, l.cacheCoins[key := e]), FlatPegin(Overlay(below, l.cacheCoins), key, e.peginSpent));
  }

  // ----- Requests and what the flat maps make of them -----

  datatype Request =
    | AddCoin(op: OutPoint, coin: Coin, possibleOverwrite: bool)
    | SpendCoin(op: OutPoint)
    | GetCoin(op: OutPoint)
    | SetPeginSpent(key: Key, spent: bool)
    | IsPeginSpent(key: Key)
    | Uncache(op: OutPoint)
    | Push
    | Drop
    | Flush(level: nat, best: Hash)

  datatype Reply = Nothing | CoinReply(coin: Coin) | PeginReply(spent: bool)

  /** What the program asks of its callers; nothing else restricts a run. */
  predicate Legal(fs: seq<Flat>, o: Request) {
    && |fs| > 0
    && (o.Push? || |fs| > 1)
    && (o.AddCoin? ==> !o.coin.Spent? && (o.coin.unspendable || o.possibleOverwrite || FlatCoin(fs[|fs| - 1], o.op).Spent?))
    && (o.SetPeginSpent? || o.IsPeginSpent? ==> o.key.genesis != 0 && o.key.outpoint.hash != 0)
    && (o.Flush? ==> o.level + 1 < |fs| && o.best != 0)
  }

  /** fs[0] is the database and fs[k] what a reader sees through k caches. */
  function FlatStep(fs: seq<Flat>, o: Request): seq<Flat>
    requires Legal(fs, o)
  {
    var t := |fs| - 1;
    match o
    case AddCoin(op, coin, _) => fs[t := FlatAdd(fs[t], op, coin)]
    case SpendCoin(op) => fs[t := FlatSpend(fs[t], op)]
    case SetPeginSpent(key, spent) => fs[t := FlatPegin(fs[t], key, spent)]
    case Push => fs + [fs[t]]
    case Drop => fs[..t]
    case Flush(level, _) => fs[level := fs[level + 1]]
    case _ => fs
  }

  function FlatReply(fs: seq<Flat>, o: Request): Reply
    requires |fs| > 0
  {
    match o
    case SpendCoin(op) => CoinReply(FlatCoin(fs[|fs| - 1], op))
    case GetCoin(op) => CoinReply(FlatCoin(fs[|fs| - 1], op))
    case IsPeginSpent(key) => PeginReply(key in fs[|fs| - 1].pegins)
    case _ => Nothing
  }

  predicate LegalRun(fs: seq<Flat>, os: seq<Request>)
    decreases |os|
  {
    os == [] || (Legal(fs, os[0]) && LegalRun(FlatStep(fs, os[0]), os[1..]))
  }

  function FlatRun(fs: seq<Flat>, os: seq<Request>): seq<Flat>
    requires LegalRun(fs, os)
    decreases |os|
  {
    if os == [] then fs else FlatRun(FlatStep(fs, os[0]), os[1..])
  }

  function FlatReplies(fs: seq<Flat>, os: seq<Request>): seq<Reply>
    requires LegalRun(fs, os)
    decreases |os|
  {
    if os == [] then [] else [FlatReply(fs, os[0])] + FlatReplies(FlatStep(fs, os[0]), os[1..])
  }

  // ----- What requests mean -----

  datatype Option<T> = None | Some(value: T)

  /** What a request leaves for an outpoint, if it says anything about it. */
  function Says(o: Request, op: OutPoint): Option<Coin> {
    if o.AddCoin? && o.op == op && !o.coin.Spent? && !o.coin.unspendable then Some(o.coin)
    else if o.SpendCoin? && o.op == op then Some(Spent)
    else None
  }

  /** What the last of the requests that says anything leaves for an outpoint; otherwise it is `before`. */
  function LastCoin(os: seq<Request>, op: OutPoint, before: Coin): Coin {
    if os == [] then before
    else LastCoin(os[1..], op, if Says(os[0], op).Some? then Says(os[0], op).value else before)
  }

  predicate LastPegin(os: seq<Request>, key: Key, before: bool) {
    if os == [] then before
    else LastPegin(os[1..], key, if os[0].SetPeginSpent? && os[0].key == key then os[0].spent else before)
  }

  ghost predicate NoDrop(os: seq<Request>) {
    forall o :: o in os ==> !o.Drop?
  }

  /** As long as no cache is dropped, every outpoint and peg-in shows what was last done to it. */
  lemma {:induction false} LastWriteWins(fs: seq<Flat>, os: seq<Request>, op: OutPoint, key: Key)
    requires |fs| > 0 && LegalRun(fs, os) && NoDrop(os)
    ensures var end := FlatRun(fs, os);
            && |end| >= |fs|
            && FlatCoin(end[|end| - 1], op) == LastCoin(os, op, FlatCoin(fs[|fs| - 1], op))
            && (key in end[|end| - 1].pegins <==> LastPegin(os, key, key in fs[|fs| - 1].pegins))
    decreases |os|
  {
    if os != [] {
      var gs := FlatStep(fs, os[0]);
      assert os[0] in os;
      OneWrite(fs, os[0], op, key);
      LastWriteWins(gs, os[1..], op, key);
    }
  }

  lemma OneWrite(fs: seq<Flat>, o: Request, op: OutPoint, key: Key)
    requires Legal(fs, o) && !o.Drop?
    ensures var gs := FlatStep(fs, o);
            && |gs| >= |fs|
            && FlatCoin(gs[|gs| - 1], op) == (if Says(o, op).Some? then Says(o, op).value else FlatCoin(fs[|fs| - 1], op))
            && (key in gs[|gs| - 1].pegins <==>
                if o.SetPeginSpent? && o.key == key then o.spent else key in fs[|fs| - 1].pegins)
  {
  }

  /** In a run every question is answered with what was last done before it. */
  lemma {:induction false} AnswersAreLastWrites(fs: seq<Flat>, os: seq<Request>, i: nat)
    requires |fs| > 0 && LegalRun(fs, os) && i < |os| && NoDrop(os[..i])
    ensures |FlatReplies(fs, os)| == |os|
    ensures os[i].GetCoin? || os[i].SpendCoin? ==>
              FlatReplies(fs, os)[i] == CoinReply(LastCoin(os[..i], os[i].op, FlatCoin(fs[|fs| - 1], os[i].op)))
    ensures os[i].IsPeginSpent? ==>
              FlatReplies(fs, os)[i] == PeginReply(LastPegin(os[..i], os[i].key, os[i].key in fs[|fs| - 1].pegins))
  {
    PrefixLegal(fs, os, i);
    ReplyAfter(fs, os, i);
    LastWriteWins(fs, os[..i], if os[i].GetCoin? || os[i].SpendCoin? then os[i].op else OutPoint(0, 0),
                  if os[i].IsPeginSpent? then os[i].key else Key(0, OutPoint(0, 0)));
  }

  lemma {:induction false} PrefixLegal(fs: seq<Flat>, os: seq<Request>, i: nat)
    requires LegalRun(fs, os) && i <= |os|
    ensures LegalRun(fs, os[..i])
    decreases i
  {
    if i > 0 {
      PrefixLegal(FlatStep(fs, os[0]), os[1..], i - 1);
      assert os[..i][1..] == os[1..][..i - 1];
    }
  }

  lemma {:induction false} ReplyAfter(fs: seq<Flat>, os: seq<Request>, i: nat)
    requires LegalRun(fs, os) && i < |os| && LegalRun(fs, os[..i])
    ensures |FlatReplies(fs, os)| == |os|
    ensures |FlatRun(fs, os[..i])| > 0 && FlatReplies(fs, os)[i] == FlatReply(FlatRun(fs, os[..i]), os[i])
    decreases |os|
  {
    hide FlatStep, FlatReply;
    var gs := FlatStep(fs, os[0]);
    if i > 0 {
      PrefixLegal(gs, os[1..], i - 1);
      ReplyAfter(gs, os[1..], i - 1);
      assert os[..i][1..] == os[1..][..i - 1];
    } else {
      RepliesLength(gs, os[1..]);
    }
  }

  lemma {:induction false} RepliesLength(fs: seq<Flat>, os: seq<Request>)
    requires LegalRun(fs, os)
    ensures |FlatReplies(fs, os)| == |os|
    decreases |os|
  {
    if os != [] {
      RepliesLength(FlatStep(fs, os[0]), os[1..]);
    }
  }

  /** Requests that only concern the top cache. */
  ghost predicate Plain(os: seq<Request>) {
    forall o :: o in os ==> !o.Push? && !o.Drop? && !o.Flush?
  }

  /** Such requests do the same to the top of any stack that shows the same there, and nothing below it. */
  lemma {:induction false} PlainRun(fs: seq<Flat>, gs: seq<Flat>, os: seq<Request>)
    requires |fs| > 1 && |gs| > 1 && fs[|fs| - 1] == gs[|gs| - 1] && LegalRun(fs, os) && Plain(os)
    ensures LegalRun(gs, os) && |FlatRun(fs, os)| == |fs|
    ensures FlatRun(gs, os) == gs[|gs| - 1 := FlatRun(fs, os)[|fs| - 1]]
    ensures FlatRun(fs, os)[..|fs| - 1] == fs[..|fs| - 1]
    ensures FlatReplies(gs, os) == FlatReplies(fs, os)
    decreases |os|
  {
    if os != [] {
      assert os[0] in os;
      PlainRun(FlatStep(fs, os[0]), FlatStep(gs, os[0]), os[1..]);
    }
  }

  lemma {:induction false} RunJoin(fs: seq<Flat>, os: seq<Request>, ps: seq<Request>)
    requires LegalRun(fs, os) && LegalRun(FlatRun(fs, os), ps)
    ensures LegalRun(fs, os + ps) && FlatRun(fs, os + ps) == FlatRun(FlatRun(fs, os), ps)
    decreases |os|
  {
    hide FlatStep;
    if os == [] {
      assert os + ps == ps;
    } else {
      RunJoin(FlatStep(fs, os[0]), os[1..], ps);
      assert (os + ps)[1..] == os[1..] + ps;
    }
  }

  /** What is done in a cache that is dropped has no effect. */
  lemma DropDiscards(fs: seq<Flat>, os: seq<Request>)
    requires |fs| > 1 && LegalRun(fs, os) && Plain(os)
    ensures var session := [Push] + os + [Drop];
            LegalRun(fs, session) && FlatRun(fs, session) == fs
  {
    var gs := fs + [fs[|fs| - 1]];
    PlainRun(fs, gs, os);
    var hs := FlatRun(gs, os);
    assert hs[..|fs|] == fs;
    OneRequest(hs, Drop);
    RunJoin(gs, os, [Drop]);
    OneRequest(fs, Push);
    RunJoin(fs, [Push], os + [Drop]);
    assert [Push] + os + [Drop] == [Push] + (os + [Drop]);
  }

  /** What is done in a cache that is flushed and dropped is done to the cache below. */
  lemma FlushCommits(fs: seq<Flat>, os: seq<Request>, best: Hash)
    requires |fs| > 1 && LegalRun(fs, os) && Plain(os) && best != 0
    ensures var session := [Push] + os + [Flush(|fs| - 1, best), Drop];
            LegalRun(fs, session) && FlatRun(fs, session) == FlatRun(fs, os)
  {
    var n := |fs|;
    var gs := fs + [fs[n - 1]];
    PlainRun(fs, gs, os);
    var hs, end := FlatRun(gs, os), FlatRun(fs, os);
    var flush := Flush(n - 1, best);
    var ks := hs[n - 1 := hs[n]];
    OneRequest(hs, flush);
    assert ks[..n] == end;
    OneRequest(ks, Drop);
    RunJoin(hs, [flush], [Drop]);
    assert [flush] + [Drop] == [flush, Drop];
    RunJoin(gs, os, [flush, Drop]);
    OneRequest(fs, Push);
    RunJoin(fs, [Push], os + [flush, Drop]);
    assert [Push] + os + [flush, Drop] == [Push] + (os + [flush, Drop]);
  }

  lemma OneRequest(fs: seq<Flat>, o: Request)
    requires Legal(fs, o)
    ensures LegalRun(fs, [o]) && FlatRun(fs, [o]) == FlatStep(fs, o)
  {
    hide FlatStep, Legal;
    assert [o][1..] == [];
  }

  // ----- What the levels of a stack show -----

  /** The coin of the highest cache that has an entry for the outpoint, or else the database's. */
  function Nearest(db: Db, ls: seq<Level>, op: OutPoint): Coin {
    if ls == [] then (if op in db.coins then db.coins[op] else Spent)
    else if Native(op) in ls[|ls| - 1].cacheCoins then ls[|ls| - 1].cacheCoins[Native(op)].coin
    else Nearest(db, ls[..|ls| - 1], op)
  }

  predicate NearestPegin(db: Db, ls: seq<Level>, key: Key) {
    if ls == [] then key in db.pegins
    else if key in ls[|ls| - 1].cacheCoins then ls[|ls| - 1].cacheCoins[key].peginSpent
    else NearestPegin(db, ls[..|ls| - 1], key)
  }

  lemma {:induction false} ViewIsNearest(db: Db, ls: seq<Level>, op: OutPoint, key: Key)
    requires key.genesis != 0
    ensures FlatCoin(View(db, ls), op) == Nearest(db, ls, op)
    ensures key in View(db, ls).pegins <==> NearestPegin(db, ls, key)
  {
    if ls != [] {
      var t := |ls| - 1;
      ViewIsNearest(db, ls[..t], op, key);
      OverlayCoin(View(db, ls[..t]), ls[t].cacheCoins, op);
      OverlayPegin(View(db, ls[..t]), ls[t].cacheCoins, key);
      hide Overlay, DbView;
    }
  }

  class CoinsViewStack {
    var db: Db
    var levels: seq<Level>

    ghost predicate Valid()
      reads this
    {
      StackOk(db, levels)
    }

    ghost function Shown(): seq<Flat>
      reads this
    {
      Views(db, levels)
    }

    constructor (db: Db)
      ensures Valid() && this.db == db && levels == []
    {
      this.db, levels := db, [];
    }

    /** A new cache on top of the stack. */
    method Push()
      requires Valid()
      modifies this
      ensures Valid() && db == old(db) && levels == old(levels) + [EmptyLevel]
      ensures Shown() == old(Shown()) + [old(View(db, levels))]
    {
      LevelPushed(db, levels, EmptyLevel);
      levels := levels + [EmptyLevel];
    }

    /** Discard the top cache. */
    method Drop()
      requires Valid() && |levels| > 0
      modifies this
      ensures Valid() && db == old(db) && levels == old(levels)[..|old(levels)| - 1]
      ensures Shown() == old(Shown())[..|old(levels)|]
    {
      levels := levels[..|levels| - 1];
    }

    /** Cache at level k what the view below shows for `key`. */
    method Emplace(k: nat, key: Key, e: Entry)
      requires Valid() && k < |levels| && key !in levels[k].cacheCoins
      requires EntryOk(e, key, Shown()[k])
      requires if key.genesis == 0 then e.coin == FlatCoin(Shown()[k], key.outpoint)
               else e.peginSpent == (key in Shown()[k].pegins)
      modifies this`levels
      ensures levels == old(levels[k := AddEntry(levels[k], key, e)])
      ensures Valid() && Shown() == old(Shown())
    {
      LevelFacts(db, levels, k);
      QuietEntryOk(Shown()[k], levels[k], key, e);
      LevelReplaced(db, levels, k, AddEntry(levels[k], key, e));
      levels := levels[k := AddEntry(levels[k], key, e)];
    }

    /** GetCoin of the view below level k: the next cache, or the database. */
    method BaseGetCoin(k: nat, op: OutPoint) returns (ok: bool, coin: Coin)
      requires Valid() && k < |levels|
      modifies this
      ensures Valid() && db == old(db) && |levels| == |old(levels)| && Shown() == old(Shown())
      ensures forall j :: k <= j < |levels| ==> levels[j] == old(levels[j])
      ensures coin == FlatCoin(Shown()[k], op)
      ensures ok <==> !coin.Spent? || (k == 0 && op in db.coins)
      decreases k, 0
    {
      if k == 0 {
        BottomView(db, levels);
        return op in db.coins, if op in db.coins then db.coins[op] else Spent;
      }
      ok, coin := GetCoin(k - 1, op);
    }

    /** Bring `op` into level k, asking the view below for it. */
    method FetchCoin(k: nat, op: OutPoint) returns (found: bool)
      requires k < |levels| && (Valid() || Native(op) in levels[k].cacheCoins)
      modifies this
      ensures db == old(db) && |levels| == |old(levels)|
      ensures old(Valid()) ==> Valid() && Shown() == old(Shown())
      ensures forall j :: k < j < |levels| ==> levels[j] == old(levels[j])
      ensures found <==> Native(op) in levels[k].cacheCoins
      ensures Native(op) in old(levels[k].cacheCoins) ==> levels == old(levels)
      ensures found <==> || Native(op) in old(levels[k].cacheCoins)
                         || !FlatCoin(Shown()[k + 1], op).Spent? || (k == 0 && op in db.coins)
      decreases k, 1
    {
      var key := Native(op);
      if key in levels[k].cacheCoins {
        return true;
      }
      var ok, tmp := BaseGetCoin(k, op);
      LevelFacts(db, levels, k);
      OverlayCoin(Shown()[k], levels[k].cacheCoins, op);
      if !ok {
        return false;
      }
      Emplace(k, key, Entry(tmp, false, tmp.Spent?, false, false));
      return true;
    }

    method GetCoin(k: nat, op: OutPoint) returns (ok: bool, coin: Coin)
      requires Valid() && k < |levels|
      modifies this
      ensures Valid() && db == old(db) && |levels| == |old(levels)| && Shown() == old(Shown())
      ensures forall j :: k < j < |levels| ==> levels[j] == old(levels[j])
      ensures coin == FlatCoin(Shown()[k + 1], op)
      ensures ok <==> !coin.Spent?
      decreases k, 2
    {
      var found := FetchCoin(k, op);
      LevelFacts(db, levels, k);
      if found {
        coin := levels[k].cacheCoins[Native(op)].coin;
        OverlayCoin(Shown()[k], levels[k].cacheCoins, op);
        return !coin.Spent?, coin;
      }
      return false, Spent;
    }

    /** The memory that the top cache holds for `op`. */
    ghost function CachedUsage(op: OutPoint): nat
      requires |levels| > 0
      reads this
    {
      UsageOf(levels[|levels| - 1].cacheCoins, Native(op))
    }

    /**
     * An attempted overwrite of a cached unspent coin throws after its memory has
     * been taken off the count, so that the count is then too small.
     */
    method AddCoin(op: OutPoint, coin: Coin, possibleOverwrite: bool) returns (threw: bool)
      requires Valid() && |levels| > 0 && !coin.Spent?
      modifies this`levels
      ensures |levels| == |old(levels)|
      ensures threw <==> && !coin.unspendable && !possibleOverwrite
                         && Native(op) in old(levels[|levels| - 1].cacheCoins)
                         && !old(levels[|levels| - 1].cacheCoins[Native(op)].coin).Spent?
      ensures FlatCoin(old(View(db, levels)), op).Spent? ==> !threw
      ensures coin.unspendable ==> !threw && levels == old(levels) && Shown() == old(Shown())
      ensures !threw ==> Shown() == old(Shown())[|levels| := FlatAdd(old(View(db, levels)), op, coin)]
      ensures !threw ==> View(db, levels).pegins == old(View(db, levels)).pegins && forall o ::
        FlatCoin(View(db, levels), o) == if o == op && !coin.unspendable then coin else FlatCoin(old(View(db, levels)), o)
      ensures !threw ==> (Valid() <==> || coin.unspendable || possibleOverwrite
                                       || FlatCoin(old(View(db, levels)), op).Spent?)
      ensures threw ==> Shown() == old(Shown()) && (Valid() <==> old(CachedUsage(op)) == 0)
      ensures !threw && !coin.unspendable ==>
        levels == old(levels[|levels| - 1 := AddedTo(levels[|levels| - 1], op, coin, possibleOverwrite)])
    {
      hide Overlay, Views, StackOk, LevelOk, CacheOk, FlatOk;
      if coin.unspendable {
        assert FlatAdd(View(db, levels), op, coin) == View(db, levels);
        return false;
      }
      var t, key := |levels| - 1, Native(op);
      LevelFacts(db, levels, t);
      OverlayCoin(Shown()[t], levels[t].cacheCoins, op);
      var top := levels[t];
      var inserted := key !in top.cacheCoins;
      var e := if inserted then BlankEntry else top.cacheCoins[key];
      if !inserted {
        top := top.(usage := top.usage - DynamicMemoryUsage(e.coin));
      }
      var markFresh := false;
      if !possibleOverwrite {
        if !e.coin.Spent? {
          TopReplaced(db, levels, top);
          UsageDecides(Shown()[t], levels[t], DynamicMemoryUsage(e.coin));
          levels := levels[t := top];
          return true;
        }
        markFresh := !e.isDirty;
      }
      e := e.(coin := coin, isDirty := true, isFresh := e.isFresh || markFresh);
      AddedLevel(Shown()[t], levels[t], op, coin, possibleOverwrite);
      top := top.(cacheCoins := top.cacheCoins[key := e], usage := top.usage + DynamicMemoryUsage(coin));
      TopReplaced(db, levels, top);
      levels := levels[t := top];
      return false;
    }

    /** A coin that is cached is spent there, whatever the other levels hold. */
    method SpendCoin(op: OutPoint) returns (ok: bool, moved: Coin)
      requires |levels| > 0 && (Valid() || Native(op) in levels[|levels| - 1].cacheCoins)
      modifies this
      ensures db == old(db) && |levels| == |old(levels)|
      ensures old(Valid()) ==> Valid() && Shown() == old(Shown())[|levels| := FlatSpend(old(View(db, levels)), op)]
      ensures old(Valid()) ==> moved == FlatCoin(old(View(db, levels)), op)
      ensures old(Valid()) ==> View(db, levels).pegins == old(View(db, levels)).pegins && forall o ::
        FlatCoin(View(db, levels), o) == if o == op then Spent else FlatCoin(old(View(db, levels)), o)
      ensures ok <==> || !moved.Spent? || Native(op) in old(levels[|levels| - 1].cacheCoins)
                      || (|levels| == 1 && op in db.coins)
      ensures Native(op) in old(levels[|levels| - 1].cacheCoins) ==>
        && moved == old(levels[|levels| - 1].cacheCoins[Native(op)].coin)
        && levels == old(levels[|levels| - 1 := SpentLevel(levels[|levels| - 1], op)])
    {
      hide Overlay, Views, StackOk, FlatOk;
      var t, key := |levels| - 1, Native(op);
      var found := FetchCoin(t, op);
      if Valid() {
        LevelFacts(db, levels, t);
        OverlayCoin(Shown()[t], levels[t].cacheCoins, op);
        if !found {
          SpendNothing(Shown()[t + 1], op);
        }
      }
      if !found {
        return false, Spent;
      }
      var top := levels[t];
      var e := top.cacheCoins[key];
      moved := e.coin;
      top := top.(usage := top.usage - DynamicMemoryUsage(e.coin));
      if e.isFresh {
        top := top.(cacheCoins := top.cacheCoins - {key});
      } else {
        top := top.(cacheCoins := top.cacheCoins[key := e.(isDirty := true, coin := Spent)]);
      }
      if Valid() {
        SpentTop(Shown()[t], levels[t], op);
        TopReplaced(db, levels, top);
      }
      levels := levels[t := top];
      ok := true;
    }

    method Uncache(op: OutPoint)
      requires Valid() && |levels| > 0
      modifies this`levels
      ensures Valid() && |levels| == |old(levels)| && Shown() == old(Shown())
      ensures var m := old(levels[|levels| - 1].cacheCoins);
              levels[|levels| - 1].cacheCoins ==
                if Native(op) in m && !m[Native(op)].isDirty && !m[Native(op)].isFresh then m - {Native(op)} else m
    {
      hide Overlay, Views, StackOk, FlatOk;
      var t, key := |levels| - 1, Native(op);
      LevelFacts(db, levels, t);
      if key in levels[t].cacheCoins {
        var e := levels[t].cacheCoins[key];
        if !e.isDirty && !e.isFresh && !e.isPegin {
          var top := levels[t].(cacheCoins := levels[t].cacheCoins - {key},
                                usage := levels[t].usage - DynamicMemoryUsage(e.coin));
          ErasedTop(Shown()[t], levels[t], key);
          TopReplaced(db, levels, top);
          levels := levels[t := top];
        }
      }
    }

    method IsPeginSpent(k: nat, key: Key) returns (spent: bool)
      requires Valid() && k < |levels|
      requires key.genesis != 0 && key.outpoint.hash != 0
      modifies this`levels
      ensures Valid() && |levels| == |old(levels)| && Shown() == old(Shown())
      ensures forall j :: k < j < |levels| ==> levels[j] == old(levels[j])
      ensures spent <==> key in Shown()[k + 1].pegins
      decreases k, 1
    {
      LevelFacts(db, levels, k);
      OverlayPegin(Shown()[k], levels[k].cacheCoins, key);
      if key in levels[k].cacheCoins {
        return levels[k].cacheCoins[key].peginSpent;
      }
      spent := BaseIsPeginSpent(k, key);
      Emplace(k, key, BlankEntry.(peginSpent := spent, isPegin := true, isFresh := !spent));
    }

    method BaseIsPeginSpent(k: nat, key: Key) returns (spent: bool)
      requires Valid() && k < |levels|
      requires key.genesis != 0 && key.outpoint.hash != 0
      modifies this`levels
      ensures Valid() && |levels| == |old(levels)| && Shown() == old(Shown())
      ensures forall j :: k <= j < |levels| ==> levels[j] == old(levels[j])
      ensures spent <==> key in Shown()[k].pegins
      decreases k, 0
    {
      if k == 0 {
        BottomView(db, levels);
        return key in db.pegins;
      }
      spent := IsPeginSpent(k - 1, key);
    }

    method SetPeginSpent(key: Key, spent: bool)
      requires Valid() && |levels| > 0
      requires key.genesis != 0 && key.outpoint.hash != 0
      modifies this`levels
      ensures Valid() && |levels| == |old(levels)|
      ensures Shown() == old(Shown())[|levels| := FlatPegin(old(View(db, levels)), key, spent)]
      ensures View(db, levels).coins == old(View(db, levels)).coins && forall k ::
        k in View(db, levels).pegins <==> if k == key then spent else k in old(View(db, levels)).pegins
    {
      hide Overlay, Views, StackOk, FlatOk;
      var t := |levels| - 1;
      var hadSpent;
      if key in levels[t].cacheCoins {
        hadSpent := levels[t].cacheCoins[key].peginSpent;
      } else {
        hadSpent := BaseIsPeginSpent(t, key);
      }
      LevelFacts(db, levels, t);
      var top := levels[t];
      OverlayPegin(Shown()[t], top.cacheCoins, key);
      if hadSpent == spent {
        assert FlatPegin(Shown()[t + 1], key, spent) == Shown()[t + 1];
        return;
      }
      var e := if key in top.cacheCoins then top.cacheCoins[key] else BlankEntry.(isFresh := !hadSpent);
      e := e.(peginSpent := spent, isPegin := true, isDirty := true);
      PeginTop(Shown()[t], top, key, e);
      TopReplaced(db, levels, top.(cacheCoins := top.cacheCoins[key := e]));
      levels := levels[t := top.(cacheCoins := top.cacheCoins[key := e])];
    }

    method GetBestBlock(k: nat) returns (hash: Hash)
      requires Valid() && k < |levels|
      modifies this`levels
      ensures Valid() && |levels| == |old(levels)| && Shown() == old(Shown())
      ensures hash == old(BestAt(db, levels[..k + 1]))
      ensures forall j :: 0 <= j <= |levels| ==> BestAt(db, levels[..j]) == old(BestAt(db, levels[..j]))
      ensures forall j :: 0 <= j < |levels| ==> levels[j].cacheCoins == old(levels[j].cacheCoins)
      ensures forall j :: k < j < |levels| ==> levels[j] == old(levels[j])
      decreases k
    {
      hide Overlay, Views, StackOk, CacheOk, FlatOk;
      assert levels[..k + 1][..k] == levels[..k];
      if levels[k].hashBlock == 0 {
        var below;
        if k == 0 {
          below := db.best;
        } else {
          below := GetBestBlock(k - 1);
        }
        LevelFacts(db, levels, k);
        LevelReplaced(db, levels, k, levels[k].(hashBlock := below));
        forall j | 0 <= j <= |levels|
          ensures BestAt(db, levels[k := levels[k].(hashBlock := below)][..j]) == old(BestAt(db, levels[..j]))
        {
          BestFilled(db, levels, k, j);
        }
        levels := levels[k := levels[k].(hashBlock := below)];
      }
      return levels[k].hashBlock;
    }

    method SetBestBlock(hash: Hash)
      requires Valid() && |levels| > 0
      modifies this`levels
      ensures Valid() && Shown() == old(Shown())
      ensures levels == old(levels[|levels| - 1 := levels[|levels| - 1].(hashBlock := hash)])
      ensures hash != 0 ==> BestAt(db, levels) == hash
    {
      var t := |levels| - 1;
      LevelFacts(db, levels, t);
      LevelReplaced(db, levels, t, levels[t].(hashBlock := hash));
      levels := levels[t := levels[t].(hashBlock := hash)];
    }

    ghost function Top(): Level
      requires |levels| > 0
      reads this`levels
    {
      levels[|levels| - 1]
    }

    /** Merge the entries of a child cache into the top cache. */
    method BatchWrite(child: Cache, hashIn: Hash) returns (threw: bool)
      requires Valid() && |levels| > 0
      modifies this`levels
      ensures |levels| == |old(levels)| && levels[..|levels| - 1] == old(levels)[..|levels| - 1]
      ensures threw <==> exists key :: Misused(old(Top().cacheCoins), child, key)
      ensures !threw ==>
                && Top().hashBlock == hashIn
                && MergedInto(old(Top().cacheCoins), child, child.Keys, Top().cacheCoins)
      ensures threw ==>
                && Top().hashBlock == old(Top().hashBlock)
                && exists done :: done < child.Keys && MergedInto(old(Top().cacheCoins), child, done, Top().cacheCoins)
      ensures CacheOk(old(View(db, levels)), child) ==>
                && !threw && Valid()
                && Shown() == old(Shown())[|levels| := Overlay(old(View(db, levels)), child)]
    {
      hide Overlay, Views, StackOk, CacheOk, FlatOk, LevelOk, EntryOk, MergeEntry, WriteEntry, Lookup, MergedInto;
      var rest, t := child.Keys, |levels| - 1;
      ghost var ls, shown := levels, View(db, levels);
      ghost var m := levels[t].cacheCoins;
      NothingMerged(m, child);
      assert child - rest == map[] && child.Keys - rest == {};
      ghost var below := Shown()[t];
      LevelFacts(db, levels, t);
      OverlayNothing(shown);
      while rest != {}
        invariant |levels| == |ls| && levels[..t] == ls[..t] && levels[t].hashBlock == ls[t].hashBlock
        invariant rest <= child.Keys
        invariant MergedInto(m, child, child.Keys - rest, levels[t].cacheCoins)
        invariant forall key :: key in child.Keys - rest ==> !Misused(m, child, key)
        invariant CacheOk(shown, child) ==>
          LevelOk(below, levels[t]) && Overlay(below, levels[t].cacheCoins) == Overlay(shown, child - rest)
      {
        var key :| key in rest;
        var it, us := child[key], levels[t];
        if CacheOk(shown, child) {
          EntryOkOtherKey(shown, child, rest, key);
          WriteEntryOk(below, us, key, it);
        }
        MergedNext(m, child, child.Keys - rest, us, key);
        MisusedIs(m, child, key);
        if MergeEntry(Lookup(us.cacheCoins, key), it).Misapplied? {
          assert Misused(old(Top().cacheCoins), child, key);
          assert child.Keys - rest < child.Keys && MergedInto(m, child, child.Keys - rest, Top().cacheCoins);
          return true;
        }
        levels := levels[t := WriteEntry(us, key, it)];
        assert child.Keys - (rest - {key}) == child.Keys - rest + {key};
        rest := rest - {key};
      }
      assert child - rest == child && child.Keys - rest == child.Keys;
      forall key ensures !Misused(m, child, key) {
        MisusedIs(m, child, key);
      }
      LevelOkHash(below, levels[t], hashIn);
      levels := levels[t := levels[t].(hashBlock := hashIn)];
      assert levels == ls[t := levels[t]];
      TopReplaced(db, ls, levels[t]);
      return false;
    }

    /** The database's BatchWrite: apply the dirty entries and record the new best block. */
    method WriteToDb(child: Cache, hashIn: Hash)
      requires CacheOk(DbView(db), child)
      requires hashIn != 0
      modifies this`db
      ensures db.best == hashIn && DbView(db) == Overlay(DbView(old(db)), child)
    {
      hide Overlay, DbView, FlatOk, EntryOk, WriteToDisk;
      var rest := child.Keys;
      ghost var shown := DbView(db);
      assert child - rest == map[];
      DbViewOk(db);
      OverlayNothing(shown);
      while rest != {}
        invariant rest <= child.Keys
        invariant DbView(db) == Overlay(shown, child - rest)
      {
        var key :| key in rest;
        EntryOkOtherKey(shown, child, rest, key);
        WriteToDiskOk(db, key, child[key]);
        db := WriteToDisk(db, key, child[key]);
        rest := rest - {key};
      }
      assert child - rest == child;
      DbViewOk(db);
      db := db.(best := hashIn);
    }

    /** Push the top cache into its base. */
    method Flush() returns (threw: bool)
      requires Valid() && |levels| > 0
      requires |levels| == 1 ==> levels[0].hashBlock != 0
      modifies this
      ensures !threw && Valid() && |levels| == |old(levels)|
      ensures levels[|levels| - 1] == EmptyLevel.(hashBlock := old(levels[|levels| - 1].hashBlock))
      ensures Shown() == old(Shown())[|levels| - 1 := old(View(db, levels))]
      ensures BestAt(db, levels[..|levels| - 1]) == old(BestAt(db, levels)) <==>
                || old(levels[|levels| - 1].hashBlock) != 0
                || old(BestAt(db, levels[..|levels| - 1])) == old(BestAt(db, levels[..|levels| - 2]))
    {
      hide Overlay, Views, DbView, StackOk, CacheOk, FlatOk;
      var t := |levels| - 1;
      var child := levels[t];
      LevelFacts(db, levels, t);
      LevelDropped(db, levels);
      levels := levels[..t];
      BottomView(db, levels);
      if t == 0 {
        WriteToDb(child.cacheCoins, child.hashBlock);
        threw := false;
      } else {
        threw := BatchWrite(child.cacheCoins, child.hashBlock);
      }
      ghost var mid := levels;
      BottomView(db, mid);
      LevelPushed(db, mid, child.(cacheCoins := map[], usage := 0));
      levels := levels + [child.(cacheCoins := map[], usage := 0)];
      assert levels[..t] == mid;
      assert t > 0 ==> mid[..t - 1] == old(levels)[..t][..t - 1] == old(levels)[..t - 1];
    }

    /** Flush an inner cache with a new best block; the caches above it stay on top of it. */
    method FlushLevel(k: nat, best: Hash)
      requires Valid() && k < |levels| && best != 0
      modifies this
      ensures Valid() && |levels| == |old(levels)| && Shown() == old(Shown())[k := old(Shown())[k + 1]]
      ensures levels[k] == EmptyLevel.(hashBlock := best) && levels[k + 1..] == old(levels)[k + 1..]
    {
      hide Views, StackOk;
      var above := levels[k + 1..];
      ghost var ls, before := levels, db;
      PrefixOk(db, levels, k + 1);
      levels := levels[..k + 1];
      SetBestBlock(best);
      ghost var lower := Shown();
      var _ := Flush();
      ghost var mid := levels;
      assert Shown() == lower[k := lower[k + 1]];
      Reattached(before, ls, db, mid, k + 1);
      levels := levels + above;
    }

    /** One request of a caller, with the reply it gets. */
    method Do(o: Request) returns (reply: Reply)
      requires Valid() && Legal(Shown(), o)
      modifies this
      ensures Valid() && Shown() == FlatStep(old(Shown()), o)
      ensures reply == FlatReply(old(Shown()), o)
    {
      hide Views, StackOk, FlatAdd, FlatSpend, FlatPegin;
      reply := Nothing;
      match o {
        case AddCoin(op, coin, overwrite) =>
          var _ := AddCoin(op, coin, overwrite);
        case SpendCoin(op) =>
          var _, moved := SpendCoin(op);
          reply := CoinReply(moved);
        case GetCoin(op) =>
          var _, coin := GetCoin(|levels| - 1, op);
          reply := CoinReply(coin);
        case SetPeginSpent(key, spent) =>
          SetPeginSpent(key, spent);
        case IsPeginSpent(key) =>
          var spent := IsPeginSpent(|levels| - 1, key);
          reply := PeginReply(spent);
        case Uncache(op) =>
          Uncache(op);
        case Push =>
          Push();
        case Drop =>
          Drop();
        case Flush(level, best) =>
          FlushLevel(level, best);
      }
    }

    /**
     Any number of requests, over a stack of any depth, is answered as the flat maps would
     answer it and leaves every height of the stack showing what the flat maps hold.
     */
    method Run(requests: seq<Request>) returns (replies: seq<Reply>)
      requires Valid() && LegalRun(Shown(), requests)
      modifies this
      ensures Valid() && Shown() == FlatRun(old(Shown()), requests)
      ensures replies == FlatReplies(old(Shown()), requests)
    {
      replies := [];
      for i := 0 to |requests|
        invariant Valid() && LegalRun(Shown(), requests[i..])
        invariant FlatRun(Shown(), requests[i..]) == FlatRun(old(Shown()), requests)
        invariant replies + FlatReplies(Shown(), requests[i..]) == FlatReplies(old(Shown()), requests)
      {
        assert requests[i..][1..] == requests[i + 1..];
        var reply := Do(requests[i]);
        replies := replies + [reply];
      }
    }
  }

  /** A cache that was never asked for its best block hands the null hash to its parent. */
  method FlushLosesBestBlock(db: Db, best: Hash) returns (stack: CoinsViewStack, ghost before: Hash)
    requires best != 0 && best != db.best
    ensures fresh(stack) && stack.Valid() && |stack.levels| == 2
    ensures before == best && BestAt(stack.db, stack.levels[..1]) != before
  {
    stack := new CoinsViewStack(db);
    stack.Push();
    stack.SetBestBlock(best);
    stack.Push();
    assert stack.levels[..1] == [stack.levels[0]] && stack.levels[..0] == [] && stack.levels[..1][..0] == [];
    before := BestAt(stack.db, stack.levels);
    var _ := stack.Flush();
  }

  /**
   The misuse that AddCoin does not notice: a coin that only a lower level holds is added as
   FRESH, so that spending it erases the entry, and the lower coin shows again.
   */
  method MisusedAddCoinRevivesCoin(op: OutPoint, lower: Coin, coin: Coin) returns (stack: CoinsViewStack, ok: bool, moved: Coin)
    requires !lower.Spent? && !coin.Spent? && !coin.unspendable
    ensures fresh(stack) && ok && moved == coin && FlatCoin(View(stack.db, stack.levels), op) == lower
  {
    stack := new CoinsViewStack(Db(map[op := lower], {}, 0));
    stack.Push();
    var threw := stack.AddCoin(op, coin, false);
    ok, moved := stack.SpendCoin(op);
    ghost var top := stack.levels[0].cacheCoins;
    assert stack.levels[..0] == [] && top == map[];
    OverlayCoin(DbView(stack.db), top, op);
  }

  /** Spending a coin twice succeeds twice, as long as the spent coin is cached. */
  method SpendCoinSucceedsTwice(op: OutPoint, coin: Coin) returns (stack: CoinsViewStack, ok: bool, moved: Coin)
    requires !coin.Spent?
    ensures fresh(stack) && stack.Valid() && ok && moved.Spent?
  {
    stack := new CoinsViewStack(Db(map[op := coin], {}, 0));
    stack.Push();
    assert stack.levels[..0] == [];
    assert FlatCoin(View(stack.db, stack.levels), op) == coin;
    ok, moved := stack.SpendCoin(op);
    ok, moved := stack.SpendCoin(op);
  }
}
