/**
 The address manager's own consistency check, and what it says of every run.

 CheckAddrman reads all structures and answers 0 or the code of the first disagreement.  It is
 proved to answer 0 exactly when the structures agree, up to two things it does not look at:
 addresses that lead to no record, and ids the counter has not reached.
 */
module AddrManCheck {
  import opened AddrMan

  /** Every record is found by its address. */
  ghost predicate AddrsFound(m: Infos, byAddr: map<Service, Id>) {
    forall id :: id in m ==> m[id].addr in byAddr && byAddr[m[id].addr] == id
  }

  ghost predicate StatsOk(m: Infos) {
    forall id :: id in m ==>
      && m[id].lastTry >= 0 && m[id].lastSuccess >= 0
      && (m[id].inTried ==> m[id].lastSuccess > 0 && m[id].refCount == 0)
  }

  /** All structures agree, as far as CheckAddrman can see. */
  ghost predicate Sound(h: Hashes, t: Tables) {
    RandomOk(t.infos, t.random) && Fits(h, t)
  }

  /** So they do, but for the shuffled vector. */
  ghost predicate Fits(h: Hashes, t: Tables) {
    && AddrsFound(t.infos, t.byAddr)
    && TriedOk(h, t.infos, t.tried)
    && NewOk(h, t.infos, t.newTable)
    && RefsOk(t.infos, t.newTable)
    && PlacedOk(t.infos, {})
    && StatsOk(t.infos)
    && t.nTried == |TriedIds(t.infos)|
    && t.nNew == |NewIds(t.infos)|
  }

  /** The exact gap between CheckAddrman and the invariant. */
  lemma SoundIsAgreement(h: Hashes, t: Tables)
    ensures Agree(h, t, {}, 0) <==>
            && Sound(h, t)
            && (forall a :: a in t.byAddr ==> t.byAddr[a] in t.infos && t.infos[t.byAddr[a]].addr == a)
            && t.nIdCount >= 0 && (forall id :: id in t.infos ==> 0 <= id < t.nIdCount)
  {
    hide RandomOk, TriedOk, NewOk, RefsOk, PlacedOk, TriedIds, NewIds;
  }

  /** An address that leads to no record passes unseen. */
  lemma StaleAddressPasses(h: Hashes, a: Service, id: Id)
    ensures var t := Tables(map[], map[a := id], [], map[], map[], 0, 0, 0, {});
            Sound(h, t) && !Agree(h, t, {}, 0)
  {
    var t := Tables(map[], map[a := id], [], map[], map[], 0, 0, 0, {});
    SoundIsAgreement(h, t);
    assert a in t.byAddr && t.byAddr[a] !in t.infos;
  }

  // ----- First pass: the records -----

  /** What CheckAddrman demands of one record. */
  predicate RecordOk(t: Tables, id: Id)
    requires id in t.infos
  {
    var i := t.infos[id];
    && (if i.inTried then i.lastSuccess != 0 && i.refCount == 0 else 1 <= i.refCount <= NEW_BUCKETS_PER_ADDRESS)
    && i.addr in t.byAddr && t.byAddr[i.addr] == id
    && 0 <= i.randomPos < |t.random| && t.random[i.randomPos] == id
    && i.lastTry >= 0 && i.lastSuccess >= 0
  }

  method CheckRecords(t: Tables) returns (code: int, triedIds: set<Id>, refs: map<Id, int>)
    ensures code == 0 <==> forall id :: id in t.infos ==> RecordOk(t, id)
    ensures code == 0 ==> triedIds == TriedIds(t.infos) && refs.Keys == NewIds(t.infos)
    ensures code == 0 ==> forall id :: id in refs ==> id in t.infos && refs[id] == t.infos[id].refCount > 0
  {
    code, triedIds, refs := 0, {}, map[];
    var rest := t.infos.Keys;
    while rest != {}
      invariant code == 0 && rest <= t.infos.Keys
      invariant forall id :: id in t.infos.Keys - rest ==> RecordOk(t, id)
      invariant triedIds == TriedIds(t.infos) - rest && refs.Keys == NewIds(t.infos) - rest
      invariant forall id :: id in refs ==> id in t.infos && refs[id] == t.infos[id].refCount > 0
      decreases rest
    {
      ghost var w: Id := AnyOf(rest);
      assert w in rest;
      var id: Id :| id in rest;
      var i := t.infos[id];
      if i.inTried {
        if i.lastSuccess == 0 {
          return -1, triedIds, refs;
        }
        if i.refCount != 0 {
          return -2, triedIds, refs;
        }
        triedIds := triedIds + {id};
      } else {
        if i.refCount < 0 || i.refCount > NEW_BUCKETS_PER_ADDRESS {
          return -3, triedIds, refs;
        }
        if i.refCount == 0 {
          return -4, triedIds, refs;
        }
        refs := refs[id := i.refCount];
      }
      if i.addr !in t.byAddr || t.byAddr[i.addr] != id {
        return -5, triedIds, refs;
      }
      if i.randomPos < 0 || i.randomPos >= |t.random| || t.random[i.randomPos] != id {
        return -14, triedIds, refs;
      }
      if i.lastTry < 0 {
        return -6, triedIds, refs;
      }
      if i.lastSuccess < 0 {
        return -8, triedIds, refs;
      }
      rest := rest - {id};
    }
  }

  // ----- Second and third pass: the tables, cell by cell -----

  /** The cells that come before cell (n, i) in reading order. */
  ghost function Upto(table: Table, n: nat, i: nat): Table {
    map c | c in table && (c.bucket < n || (c.bucket == n && c.pos < i)) :: table[c]
  }

  /** A table is an array of `buckets` rows. */
  ghost predicate Within(table: Table, buckets: nat) {
    forall c :: c in table ==> c.bucket < buckets && c.pos < BUCKET_SIZE
  }

  lemma UptoNext(table: Table, n: nat, i: nat)
    ensures var c := Cell(n, i);
            && c !in Upto(table, n, i)
            && Upto(table, n, i + 1) == if c in table then Upto(table, n, i)[c := table[c]] else Upto(table, n, i)
  {
  }

  lemma UptoRow(table: Table, buckets: nat, n: nat)
    requires Within(table, buckets)
    ensures Upto(table, n, BUCKET_SIZE) == Upto(table, n + 1, 0)
  {
  }

  lemma UptoAll(table: Table, buckets: nat)
    requires Within(table, buckets)
    ensures Upto(table, 0, 0) == map[] && Upto(table, buckets, 0) == table
  {
  }

  /** The part of the tried table read so far is right, and `left` are the tried ids not met yet. */
  ghost predicate TriedRead(h: Hashes, m: Infos, part: Table, left: set<Id>) {
    && (forall c :: c in part ==> part[c] in m && m[part[c]].inTried && c == TriedCell(h, m[part[c]].addr))
    && (forall id :: id in left <==> id in m && m[id].inTried && id !in part.Values)
  }

  lemma TriedReadStart(h: Hashes, m: Infos)
    ensures TriedRead(h, m, map[], TriedIds(m))
  {
  }

  lemma TriedReadNext(h: Hashes, m: Infos, part: Table, left: set<Id>, c: Cell, id: Id)
    requires TriedRead(h, m, part, left) && c !in part && id in left && c == TriedCell(h, m[id].addr)
    ensures TriedRead(h, m, part[c := id], left - {id})
  {
    var part' := part[c := id];
    assert part'[c] == id;
    forall x ensures x in part'.Values <==> x == id || x in part.Values {
      if x in part.Values {
        var d :| d in part && part[d] == x;
        assert part'[d] == x;
      }
    }
  }

  lemma TriedReadFails(h: Hashes, m: Infos, tried: Table, n: nat, i: nat, left: set<Id>)
    requires TriedRead(h, m, Upto(tried, n, i), left) && Cell(n, i) in tried
    requires var id := tried[Cell(n, i)]; id !in left || id !in m || Cell(n, i) != TriedCell(h, m[id].addr)
    ensures !TriedOk(h, m, tried)
  {
    assert Cell(n, i) !in Upto(tried, n, i);
  }

  lemma TriedReadEnd(h: Hashes, m: Infos, tried: Table, left: set<Id>)
    requires TriedRead(h, m, tried, left)
    ensures left == {} <==> TriedOk(h, m, tried)
  {
    if left == {} {
      forall id | id in m && m[id].inTried
        ensures TriedCell(h, m[id].addr) in tried && tried[TriedCell(h, m[id].addr)] == id
      {
        assert id !in left;
        var c :| c in tried && tried[c] == id;
      }
    }
    if TriedOk(h, m, tried) {
      forall id ensures id !in left {
        if id in m && m[id].inTried {
          assert tried[TriedCell(h, m[id].addr)] in tried.Values;
        }
      }
    }
  }

  method CheckTried(h: Hashes, t: Tables, triedIds: set<Id>) returns (code: int, left: set<Id>)
    requires triedIds == TriedIds(t.infos) && Within(t.tried, TRIED_BUCKET_COUNT)
    ensures code == 0 && left == {} <==> TriedOk(h, t.infos, t.tried)
  {
    hide TriedRead, TriedOk, TriedIds, Upto;
    code, left := 0, triedIds;
    TriedReadStart(h, t.infos);
    UptoAll(t.tried, TRIED_BUCKET_COUNT);
    for n := 0 to TRIED_BUCKET_COUNT
      invariant TriedRead(h, t.infos, Upto(t.tried, n, 0), left)
    {
      for i := 0 to BUCKET_SIZE
        invariant TriedRead(h, t.infos, Upto(t.tried, n, i), left)
      {
        UptoNext(t.tried, n, i);
        var c := Cell(n, i);
        if c in t.tried {
          var id := t.tried[c];
          if id !in left {
            TriedReadFails(h, t.infos, t.tried, n, i, left);
            return -11, left;
          }
          if id !in t.infos || TriedCell(h, t.infos[id].addr).bucket != n {
            TriedReadFails(h, t.infos, t.tried, n, i, left);
            return -17, left;
          }
          if TriedCell(h, t.infos[id].addr).pos != i {
            TriedReadFails(h, t.infos, t.tried, n, i, left);
            return -18, left;
          }
          TriedReadNext(h, t.infos, Upto(t.tried, n, i), left, c, id);
          left := left - {id};
        }
      }
      UptoRow(t.tried, TRIED_BUCKET_COUNT, n);
    }
    TriedReadEnd(h, t.infos, t.tried, left);
  }

  /** The references of an entry that were not met in a part of the new table. */
  ghost function Missing(m: Infos, part: Table, id: Id): int
    requires id in m
  {
    m[id].refCount - |CellsOf(part, id)|
  }

  ghost predicate MissingIs(m: Infos, part: Table, refs: map<Id, int>, id: Id) {
    if id in m && !m[id].inTried
    then Missing(m, part, id) >= 0 && (if id in refs then refs[id] == Missing(m, part, id) > 0 else Missing(m, part, id) == 0)
    else id !in refs
  }

  ghost predicate NewCellsOk(h: Hashes, m: Infos, part: Table) {
    forall c :: c in part ==> part[c] in m && !m[part[c]].inTried && c == NewCell(h, m[part[c]].addr, c.bucket)
  }

  /** The part of the new table read so far is right, and `refs` are the references not met yet. */
  ghost predicate NewRead(h: Hashes, m: Infos, part: Table, refs: map<Id, int>) {
    NewCellsOk(h, m, part) && forall id {:trigger MissingIs(m, part, refs, id)} :: MissingIs(m, part, refs, id)
  }

  lemma NewReadStart(h: Hashes, m: Infos, refs: map<Id, int>)
    requires refs.Keys == NewIds(m) && (forall id :: id in refs ==> refs[id] == m[id].refCount > 0)
    ensures NewRead(h, m, map[], refs)
  {
    forall id ensures MissingIs(m, map[], refs, id) {
      assert CellsOf(map[], id) == {};
      assert id in refs <==> id in NewIds(m);
    }
  }

  lemma MissingNext(m: Infos, part: Table, refs: map<Id, int>, c: Cell, id: Id, x: Id)
    requires MissingIs(m, part, refs, x) && c !in part && id in refs && id in m
    ensures MissingIs(m, part[c := id], if refs[id] == 1 then refs - {id} else refs[id := refs[id] - 1], x)
  {
    assert CellsOf(part[c := id], x) == if x == id then CellsOf(part, x) + {c} else CellsOf(part, x);
  }

  lemma NewReadNext(h: Hashes, m: Infos, part: Table, refs: map<Id, int>, c: Cell, id: Id)
    requires NewRead(h, m, part, refs) && c !in part && id in refs && id in m && c == NewCell(h, m[id].addr, c.bucket)
    ensures NewRead(h, m, part[c := id], if refs[id] == 1 then refs - {id} else refs[id := refs[id] - 1])
  {
    var part', refs' := part[c := id], if refs[id] == 1 then refs - {id} else refs[id := refs[id] - 1];
    assert !m[id].inTried by {
      assert MissingIs(m, part, refs, id);
    }
    hide NewCell, MissingIs;
    forall x ensures MissingIs(m, part', refs', x) {
      assert MissingIs(m, part, refs, x);
      MissingNext(m, part, refs, c, id, x);
    }
  }

  lemma NewReadFails(h: Hashes, m: Infos, table: Table, n: nat, i: nat, refs: map<Id, int>)
    requires NewRead(h, m, Upto(table, n, i), refs) && Cell(n, i) in table
    requires var id := table[Cell(n, i)]; id !in refs || id !in m || Cell(n, i) != NewCell(h, m[id].addr, n)
    ensures !(NewOk(h, m, table) && RefsOk(m, table))
  {
    var part, c := Upto(table, n, i), Cell(n, i);
    var id := table[c];
    if NewOk(h, m, table) && RefsOk(m, table) {
      assert MissingIs(m, part, refs, id);
      assert CellsOf(part, id) + {c} <= CellsOf(table, id);
      SubsetSize(CellsOf(part, id) + {c}, CellsOf(table, id));
    }
  }

  lemma NewReadEnd(h: Hashes, m: Infos, table: Table, refs: map<Id, int>)
    requires NewRead(h, m, table, refs) && Within(table, NEW_BUCKET_COUNT)
    requires forall id :: id in m && m[id].inTried ==> m[id].refCount == 0
    ensures refs == map[] <==> NewOk(h, m, table) && RefsOk(m, table)
  {
    forall id ensures MissingIs(m, table, refs, id) {
    }
    if refs == map[] {
      forall id | id in m ensures m[id].refCount == |CellsOf(table, id)| {
        assert MissingIs(m, table, refs, id);
        assert m[id].inTried ==> CellsOf(table, id) == {};
      }
    } else {
      assert refs.Keys != {};
      var id: Id := AnyOf(refs.Keys);
      assert MissingIs(m, table, refs, id);
    }
  }

  method CheckNew(h: Hashes, t: Tables, counts: map<Id, int>) returns (code: int, refs: map<Id, int>)
    requires counts.Keys == NewIds(t.infos) && (forall id :: id in counts ==> counts[id] == t.infos[id].refCount > 0)
    requires Within(t.newTable, NEW_BUCKET_COUNT)
    requires forall id :: id in t.infos && t.infos[id].inTried ==> t.infos[id].refCount == 0
    ensures code == 0 && refs == map[] <==> NewOk(h, t.infos, t.newTable) && RefsOk(t.infos, t.newTable)
  {
    hide NewRead, NewOk, RefsOk, NewIds, Upto;
    code, refs := 0, counts;
    NewReadStart(h, t.infos, refs);
    UptoAll(t.newTable, NEW_BUCKET_COUNT);
    for n := 0 to NEW_BUCKET_COUNT
      invariant NewRead(h, t.infos, Upto(t.newTable, n, 0), refs)
    {
      for i := 0 to BUCKET_SIZE
        invariant NewRead(h, t.infos, Upto(t.newTable, n, i), refs)
      {
        UptoNext(t.newTable, n, i);
        var c := Cell(n, i);
        if c in t.newTable {
          var id := t.newTable[c];
          if id !in refs {
            NewReadFails(h, t.infos, t.newTable, n, i, refs);
            return -12, refs;
          }
          if id !in t.infos || NewCell(h, t.infos[id].addr, n).pos != i {
            NewReadFails(h, t.infos, t.newTable, n, i, refs);
            return -19, refs;
          }
          NewReadNext(h, t.infos, Upto(t.newTable, n, i), refs, c, id);
          ghost var before := refs;
          refs := refs[id := refs[id] - 1];
          assert refs - {id} == before - {id};
          if refs[id] == 0 {
            refs := refs - {id};
          }
        }
      }
      UptoRow(t.newTable, NEW_BUCKET_COUNT, n);
    }
    NewReadEnd(h, t.infos, t.newTable, refs);
  }

  // ----- The shuffled vector, by counting -----

  ghost function Elements(v: seq<Id>): set<Id> {
    set x | x in v
  }

  ghost predicate Distinct(v: seq<Id>) {
    forall i, j :: 0 <= i < j < |v| ==> v[i] != v[j]
  }

  lemma {:induction false} DistinctIsFull(v: seq<Id>)
    ensures |Elements(v)| <= |v| && (|Elements(v)| == |v| <==> Distinct(v))
  {
    if v != [] {
      var w, x := v[..|v| - 1], v[|v| - 1];
      DistinctIsFull(w);
      assert v == w + [x];
      if x in w {
        assert Elements(v) == Elements(w);
        var k :| 0 <= k < |w| && w[k] == x;
        assert v[k] == v[|v| - 1];
      } else {
        assert Elements(v) == Elements(w) + {x};
        assert Distinct(v) <==> Distinct(w) by {
          assert forall i :: 0 <= i < |w| ==> w[i] == v[i] && w[i] in w;
        }
      }
    }
  }

  lemma SplitSize(m: Infos)
    ensures |m.Keys| == |TriedIds(m)| + |NewIds(m)|
  {
    assert m.Keys == TriedIds(m) + NewIds(m) && TriedIds(m) !! NewIds(m);
  }

  lemma RandomSize(m: Infos, v: seq<Id>)
    requires RandomOk(m, v)
    ensures |v| == |TriedIds(m)| + |NewIds(m)|
  {
    assert forall i :: 0 <= i < |v| ==> m[v[i]].randomPos == i;
    DistinctIsFull(v);
    forall x ensures x in Elements(v) <==> x in m.Keys {
      if x in m {
        assert v[m[x].randomPos] == x;
      }
    }
    assert Elements(v) == m.Keys;
    SplitSize(m);
  }

  /** Positions that lead back to every record fill a vector of the right size: a pigeonhole argument. */
  lemma RandomFull(m: Infos, v: seq<Id>)
    requires forall id :: id in m ==> 0 <= m[id].randomPos < |v| && v[m[id].randomPos] == id
    requires |v| == |TriedIds(m)| + |NewIds(m)|
    ensures RandomOk(m, v)
  {
    SplitSize(m);
    DistinctIsFull(v);
    assert forall id :: id in m ==> id in v;
    assert m.Keys <= Elements(v);
    SubsetSize(m.Keys, Elements(v));
    SubsetEqual(m.Keys, Elements(v));
    forall i | 0 <= i < |v| ensures v[i] in m && m[v[i]].randomPos == i {
      assert v[i] in Elements(v);
      assert v[m[v[i]].randomPos] == v[i];
    }
  }

  lemma SubsetEqual<T>(a: set<T>, b: set<T>)
    requires a <= b && |a| >= |b|
    ensures a == b
  {
    if x :| x in b && x !in a {
      SubsetSize(a, b - {x});
      assert false;
    }
  }

  // ----- The whole check -----

  /** The structures have the shape of the arrays that hold them. */
  ghost predicate Shaped(t: Tables) {
    Within(t.tried, TRIED_BUCKET_COUNT) && Within(t.newTable, NEW_BUCKET_COUNT)
  }

  lemma SoundParts(h: Hashes, t: Tables)
    ensures Sound(h, t) ==>
      && |t.random| == t.nTried + t.nNew
      && (forall id :: id in t.infos ==> RecordOk(t, id))
      && t.nTried == |TriedIds(t.infos)| && t.nNew == |NewIds(t.infos)|
      && TriedOk(h, t.infos, t.tried) && NewOk(h, t.infos, t.newTable) && RefsOk(t.infos, t.newTable)
  {
    if Sound(h, t) {
      RandomSize(t.infos, t.random);
    }
  }

  lemma PartsSound(h: Hashes, t: Tables)
    requires RandomOk(t.infos, t.random) && (forall id :: id in t.infos ==> RecordOk(t, id))
    requires t.nTried == |TriedIds(t.infos)| && t.nNew == |NewIds(t.infos)|
    requires TriedOk(h, t.infos, t.tried) && NewOk(h, t.infos, t.newTable) && RefsOk(t.infos, t.newTable)
    ensures Sound(h, t)
  {
    hide RandomOk, TriedOk, NewOk, RefsOk, TriedIds, NewIds;
  }

  /** `code` is 0 or says which test failed first. */
  method CheckAddrman(h: Hashes, t: Tables, keyIsNull: bool) returns (code: int)
    requires Shaped(t)
    ensures code == 0 <==> Sound(h, t) && !keyIsNull
  {
    SoundParts(h, t);
    hide Sound, RandomOk, TriedOk, NewOk, RefsOk, TriedIds, NewIds;
    if |t.random| != t.nTried + t.nNew {
      return -7;
    }
    var triedIds, refs;
    code, triedIds, refs := CheckRecords(t);
    if code != 0 {
      return;
    }
    if |triedIds| != t.nTried {
      return -9;
    }
    if |refs| != t.nNew {
      return -10;
    }
    var left;
    code, left := CheckTried(h, t, triedIds);
    if code != 0 {
      return;
    }
    code, refs := CheckNew(h, t, refs);
    if code != 0 {
      return;
    }
    if left != {} {
      return -13;
    }
    if refs != map[] {
      return -15;
    }
    if keyIsNull {
      return -16;
    }
    RandomFull(t.infos, t.random);
    PartsSound(h, t);
  }

  // ----- Runs -----

  datatype Op =
    | Add(adverts: seq<Advert>, source: NetAddr, penalty: int, now: int, luck: nat -> bool)
    | Good(addr: Service, time: int)
    | Attempt(addr: Service, countFailure: bool, time: int)
    | Connected(addr: Service, time: int)
    | SetServices(addr: Service, services: set<nat>)
    | GetAddr(maxAddresses: nat, maxPct: nat, network: NetFilter, now: int, roll: nat -> nat)
    | ResolveCollisions(now: int)
    | SelectTriedCollision

  /** Clocks are positive. */
  predicate Clocked(op: Op) {
    match op
    case Good(_, time) => time > 0
    case Attempt(_, _, time) => time >= 0
    case ResolveCollisions(now) => now > 0
    case _ => true
  }

  method Do(am: AddrManImpl, op: Op)
    requires am.Valid() && Clocked(op)
    modifies am
    ensures am.Valid() && Later(old(am.State()), am.State())
  {
    hide Inv, Later;
    match op
    case Add(adverts, source, penalty, now, luck) => var _, _ := am.Add(adverts, source, penalty, now, luck);
    case Good(addr, time) => var _ := am.Good(addr, true, time);
    case Attempt(addr, countFailure, time) => am.Attempt(addr, countFailure, time);
    case Connected(addr, time) => am.Connected(addr, time);
    case SetServices(addr, services) => am.SetServices(addr, services);
    case GetAddr(maxAddresses, maxPct, network, now, roll) =>
      var _ := am.GetAddr(maxAddresses, maxPct, network, now, roll);
    case ResolveCollisions(now) => ghost var _ := am.ResolveCollisions(now);
    case SelectTriedCollision => SelectAny(am);
  }

  /** Any waiting entry may be picked. */
  method SelectAny(am: AddrManImpl)
    requires am.Valid()
    modifies am
    ensures am.Valid() && Later(old(am.State()), am.State())
  {
    hide Inv;
    var pick: Id := 0;
    if am.waiting != {} {
      ghost var w: Id := AnyOf(am.waiting);
      assert w in am.waiting;
      pick :| pick in am.waiting;
    }
    var _, _ := am.SelectTriedCollision(pick);
  }

  method Run(am: AddrManImpl, ops: seq<Op>)
    requires am.Valid() && (forall op :: op in ops ==> Clocked(op))
    modifies am
    ensures am.Valid() && Later(old(am.State()), am.State())
  {
    hide Inv, Later;
    LaterSelf(am.State());
    for k := 0 to |ops|
      invariant am.Valid() && Later(old(am.State()), am.State())
    {
      ghost var t := am.State();
      Do(am, ops[k]);
      LaterTrans(old(am.State()), t, am.State());
    }
  }

  lemma InvPasses(h: Hashes, t: Tables)
    requires Inv(h, t)
    ensures Shaped(t) && Sound(h, t)
  {
    SoundIsAgreement(h, t);
  }

  /** Whatever is done to an address manager that is consistent, its consistency check passes. */
  method StaysSound(am: AddrManImpl, ops: seq<Op>) returns (code: int)
    requires am.Valid() && forall op :: op in ops ==> Clocked(op)
    modifies am
    ensures am.Valid() && code == 0
  {
    hide Inv, Later, Sound, Shaped;
    Run(am, ops);
    InvPasses(am.h, am.State());
    code := CheckAddrman(am.h, am.State(), false);
  }

  /** Whatever is done to a fresh address manager, its consistency check passes. */
  method Reachable(h: Hashes, ops: seq<Op>) returns (code: int)
    requires forall op :: op in ops ==> Clocked(op)
    ensures code == 0
  {
    var am := new AddrManImpl(h);
    code := StaysSound(am, ops);
  }
}
