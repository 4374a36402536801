/**
 The address manager of src/addrman.cpp.

 Seven structures describe the same set of addresses: the records by id, the ids by
 address, a shuffled vector of ids, the "new" and "tried" bucket tables, two counters and
 the set of tried collisions.  A table is kept here as the map of its occupied cells; the
 bucket and position hashes are arbitrary functions reduced to the table sizes.
 */
module AddrMan {

  type Id = int
  type Service = nat
  type NetAddr = nat

  const TRIED_BUCKET_COUNT: nat := 256
  const NEW_BUCKET_COUNT: nat := 1024
  const BUCKET_SIZE: nat := 64
  const NEW_BUCKETS_PER_ADDRESS: nat := 8
  const SET_TRIED_COLLISION_SIZE: nat := 10
  const MINUTE := 60
  const HOUR := 60 * MINUTE
  const DAY := 24 * HOUR
  const HORIZON := 30 * DAY
  const RETRIES := 3
  const MAX_FAILURES := 10
  const MIN_FAIL := 7 * DAY
  const REPLACEMENT := 4 * HOUR
  const TEST_WINDOW := 40 * MINUTE

  datatype AddrInfo = AddrInfo(
    addr: Service, time: int, services: set<nat>, source: NetAddr,
    lastTry: int, lastCountAttempt: int, lastSuccess: int, attempts: int,
    refCount: int, inTried: bool, randomPos: int)

  /** A cell of a bucket table. */
  datatype Cell = Cell(bucket: nat, pos: nat)

  type Infos = map<Id, AddrInfo>
  type Table = map<Cell, Id>

  /** The keyed hashes, and what CNetAddr says about an address. */
  datatype Hashes = Hashes(
    tried: Service -> nat, unproven: (Service, NetAddr) -> nat, pos: (bool, nat, Service) -> nat,
    routable: Service -> bool, valid: Service -> bool, host: Service -> NetAddr, network: Service -> nat)

  function TriedCell(h: Hashes, a: Service): Cell {
    var b := h.tried(a) % TRIED_BUCKET_COUNT;
    Cell(b, h.pos(false, b, a) % BUCKET_SIZE)
  }

  function NewCell(h: Hashes, a: Service, bucket: nat): Cell {
    Cell(bucket, h.pos(true, bucket, a) % BUCKET_SIZE)
  }

  function NewBucket(h: Hashes, a: Service, source: NetAddr): (b: nat)
    ensures b < NEW_BUCKET_COUNT
  {
    h.unproven(a, source) % NEW_BUCKET_COUNT
  }

  // ----- The invariant, structure by structure -----

  ghost predicate AddrsOk(m: Infos, byAddr: map<Service, Id>) {
    && (forall id :: id in m ==> m[id].addr in byAddr && byAddr[m[id].addr] == id)
    && (forall a :: a in byAddr ==> byAddr[a] in m && m[byAddr[a]].addr == a)
  }

  ghost predicate RandomOk(m: Infos, v: seq<Id>) {
    && (forall id :: id in m ==> 0 <= m[id].randomPos < |v| && v[m[id].randomPos] == id)
    && (forall i :: 0 <= i < |v| ==> v[i] in m && m[v[i]].randomPos == i)
  }

  ghost predicate TriedOk(h: Hashes, m: Infos, tried: Table) {
    && (forall c :: c in tried ==> tried[c] in m && m[tried[c]].inTried && c == TriedCell(h, m[tried[c]].addr))
    && (forall id :: id in m && m[id].inTried ==> TriedCell(h, m[id].addr) in tried && tried[TriedCell(h, m[id].addr)] == id)
  }

  ghost predicate NewOk(h: Hashes, m: Infos, table: Table) {
    forall c :: c in table ==>
      && c.bucket < NEW_BUCKET_COUNT
      && table[c] in m && !m[table[c]].inTried && c == NewCell(h, m[table[c]].addr, c.bucket)
  }

  /** The cells of a table that hold an id. */
  ghost function CellsOf(table: Table, id: Id): set<Cell> {
    set c | c in table && table[c] == id
  }

  ghost predicate RefsOk(m: Infos, table: Table) {
    forall id :: id in m ==> m[id].refCount == |CellsOf(table, id)|
  }

  ghost function TriedIds(m: Infos): set<Id> {
    set id | id in m && m[id].inTried
  }

  ghost function NewIds(m: Infos): set<Id> {
    set id | id in m && !m[id].inTried
  }

  /** Every record is somewhere, except those in `limbo`, which an operation is about to place. */
  ghost predicate PlacedOk(m: Infos, limbo: set<Id>) {
    && (forall id :: id in m && id !in limbo ==> m[id].inTried || 1 <= m[id].refCount <= NEW_BUCKETS_PER_ADDRESS)
    && (forall id :: id in limbo ==> id in m && !m[id].inTried && m[id].refCount == 0)
  }

  ghost predicate RecordsOk(m: Infos, nIdCount: int) {
    forall id :: id in m ==>
      && 0 <= id < nIdCount
      && m[id].lastTry >= 0 && m[id].lastSuccess >= 0
      && (m[id].inTried ==> m[id].lastSuccess > 0 && m[id].refCount == 0)
  }

  /** A waiting id that is still known wants a tried cell that is taken. */
  ghost predicate CollisionsOk(h: Hashes, m: Infos, tried: Table, waiting: set<Id>, nIdCount: int) {
    && |waiting| <= SET_TRIED_COLLISION_SIZE
    && (forall id :: id in waiting ==> id < nIdCount)
    && (forall id :: id in waiting && id in m ==> TriedCell(h, m[id].addr) in tried)
  }

  /** Everything but the hashes and the clock. */
  datatype Tables = Tables(
    infos: Infos, byAddr: map<Service, Id>, random: seq<Id>, tried: Table, newTable: Table,
    nTried: int, nNew: int, nIdCount: int, waiting: set<Id>)

  /**
   All structures agree.  In the middle of an operation the records in `limbo` are in no
   table, and `off` records that are not in tried are not counted in nNew.
   */
  ghost predicate Agree(h: Hashes, t: Tables, limbo: set<Id>, off: int) {
    && AddrsOk(t.infos, t.byAddr)
    && RandomOk(t.infos, t.random)
    && TriedOk(h, t.infos, t.tried)
    && NewOk(h, t.infos, t.newTable)
    && RefsOk(t.infos, t.newTable)
    && PlacedOk(t.infos, limbo)
    && RecordsOk(t.infos, t.nIdCount)
    && t.nIdCount >= 0
    && t.nTried == |TriedIds(t.infos)|
    && t.nNew == |NewIds(t.infos)| - off
  }

  /** The invariant between operations. */
  ghost predicate Inv(h: Hashes, t: Tables) {
    Agree(h, t, {}, 0) && CollisionsOk(h, t.infos, t.tried, t.waiting, t.nIdCount)
  }

  // ----- What each part of the invariant depends on -----

  lemma AddrsFrame(m: Infos, id: Id, i: AddrInfo, byAddr: map<Service, Id>)
    requires AddrsOk(m, byAddr) && id in m && i.addr == m[id].addr
    ensures AddrsOk(m[id := i], byAddr)
  {
  }

  lemma RandomFrame(m: Infos, id: Id, i: AddrInfo, v: seq<Id>)
    requires RandomOk(m, v) && id in m && i.randomPos == m[id].randomPos
    ensures RandomOk(m[id := i], v)
  {
  }

  lemma TriedFrame(h: Hashes, m: Infos, id: Id, i: AddrInfo, tried: Table)
    requires TriedOk(h, m, tried) && id in m && i.addr == m[id].addr && i.inTried == m[id].inTried
    ensures TriedOk(h, m[id := i], tried)
    ensures TriedIds(m[id := i]) == TriedIds(m) && NewIds(m[id := i]) == NewIds(m)
  {
  }

  lemma NewFrame(h: Hashes, m: Infos, id: Id, i: AddrInfo, table: Table)
    requires NewOk(h, m, table) && id in m && i.addr == m[id].addr
    requires i.inTried ==> m[id].inTried || CellsOf(table, id) == {}
    ensures NewOk(h, m[id := i], table)
  {
    assert forall c :: c in table ==> c in CellsOf(table, table[c]);
  }

  lemma RefsFrame(m: Infos, id: Id, i: AddrInfo, table: Table)
    requires RefsOk(m, table) && id in m && i.refCount == m[id].refCount
    ensures RefsOk(m[id := i], table)
  {
  }

  lemma RestFrame(m: Infos, id: Id, i: AddrInfo, limbo: set<Id>, limbo': set<Id>, nIdCount: int)
    requires PlacedOk(m, limbo) && RecordsOk(m, nIdCount) && id in m
    requires limbo' - {id} == limbo - {id}
    requires if id in limbo' then !i.inTried && i.refCount == 0
             else i.inTried || 1 <= i.refCount <= NEW_BUCKETS_PER_ADDRESS
    requires i.lastTry >= 0 && i.lastSuccess >= 0 && (i.inTried ==> i.lastSuccess > 0 && i.refCount == 0)
    ensures PlacedOk(m[id := i], limbo') && RecordsOk(m[id := i], nIdCount)
  {
    assert forall j :: j != id ==> (j in limbo' <==> j in limbo' - {id}) && (j in limbo <==> j in limbo - {id});
  }

  /** Records that only differ in fields that no structure repeats. */
  predicate SameShape(i: AddrInfo, j: AddrInfo) {
    i.addr == j.addr && i.refCount == j.refCount && i.inTried == j.inTried && i.randomPos == j.randomPos
  }

  lemma StatsKeep(h: Hashes, t: Tables, limbo: set<Id>, off: int, id: Id, i: AddrInfo)
    requires Agree(h, t, limbo, off) && id in t.infos
    requires SameShape(t.infos[id], i) && i.lastTry >= 0 && i.lastSuccess >= 0 && (i.inTried ==> i.lastSuccess > 0)
    ensures Agree(h, t.(infos := t.infos[id := i]), limbo, off)
  {
    hide AddrsOk, RandomOk, TriedOk, NewOk, RefsOk, PlacedOk, RecordsOk, TriedIds, NewIds, CellsOf;
    RecordOf(h, t, limbo, off, id);
    AddrsFrame(t.infos, id, i, t.byAddr);
    RandomFrame(t.infos, id, i, t.random);
    TriedFrame(h, t.infos, id, i, t.tried);
    NewFrame(h, t.infos, id, i, t.newTable);
    RefsFrame(t.infos, id, i, t.newTable);
    RestFrame(t.infos, id, i, limbo, limbo, t.nIdCount);
  }

  /** What the invariant says of one record. */
  lemma RecordOf(h: Hashes, t: Tables, limbo: set<Id>, off: int, id: Id)
    requires Agree(h, t, limbo, off) && id in t.infos
    ensures var i := t.infos[id];
            && 0 <= id < t.nIdCount && i.lastTry >= 0 && i.lastSuccess >= 0
            && (i.inTried ==> i.lastSuccess > 0 && i.refCount == 0)
            && i.refCount == |CellsOf(t.newTable, id)| <= NEW_BUCKETS_PER_ADDRESS
            && (if id in limbo then !i.inTried && i.refCount == 0 else i.inTried || i.refCount >= 1)
            && i.addr in t.byAddr && t.byAddr[i.addr] == id
            && 0 <= i.randomPos < |t.random| && t.random[i.randomPos] == id
  {
  }

  lemma AtPosition(h: Hashes, t: Tables, limbo: set<Id>, off: int, i: nat)
    requires Agree(h, t, limbo, off) && i < |t.random|
    ensures t.random[i] in t.infos && t.infos[t.random[i]].randomPos == i
  {
  }

  // ----- Elementary changes -----

  /** Take the id out of one cell of the new table. */
  function DropRef(t: Tables, c: Cell): Tables
    requires c in t.newTable && t.newTable[c] in t.infos
  {
    var id := t.newTable[c];
    t.(newTable := t.newTable - {c}, infos := t.infos[id := t.infos[id].(refCount := t.infos[id].refCount - 1)])
  }

  lemma DropRefKeeps(h: Hashes, t: Tables, limbo: set<Id>, off: int, c: Cell)
    requires Agree(h, t, limbo, off) && c in t.newTable
    ensures t.newTable[c] in t.infos && t.newTable[c] !in limbo
    ensures var id, t' := t.newTable[c], DropRef(t, c);
            Agree(h, t', if t'.infos[id].refCount == 0 then limbo + {id} else limbo, off)
  {
    hide AddrsOk, RandomOk, TriedOk, NewOk, RefsOk, PlacedOk, RecordsOk, TriedIds, NewIds, CellsOf;
    var id := t.newTable[c];
    OccupantOf(h, t, limbo, off, c);
    RecordOf(h, t, limbo, off, id);
    var i := t.infos[id].(refCount := t.infos[id].refCount - 1);
    RefsAfterDrop(t.infos, t.newTable, c);
    AddrsFrame(t.infos, id, i, t.byAddr);
    RandomFrame(t.infos, id, i, t.random);
    TriedFrame(h, t.infos, id, i, t.tried);
    NewFrame(h, t.infos, id, i, t.newTable);
    NewShrinks(h, t.infos[id := i], t.newTable, c);
    RestFrame(t.infos, id, i, limbo, if i.refCount == 0 then limbo + {id} else limbo, t.nIdCount);
  }

  lemma OccupantOf(h: Hashes, t: Tables, limbo: set<Id>, off: int, c: Cell)
    requires Agree(h, t, limbo, off) && c in t.newTable
    ensures t.newTable[c] in t.infos && !t.infos[t.newTable[c]].inTried && t.newTable[c] !in limbo
    ensures c.bucket < NEW_BUCKET_COUNT && c == NewCell(h, t.infos[t.newTable[c]].addr, c.bucket)
    ensures t.infos[t.newTable[c]].refCount >= 1
  {
    assert c in CellsOf(t.newTable, t.newTable[c]);
  }

  lemma NewShrinks(h: Hashes, m: Infos, table: Table, c: Cell)
    requires NewOk(h, m, table)
    ensures NewOk(h, m, table - {c})
  {
  }

  lemma RefsAfterDrop(m: Infos, table: Table, c: Cell)
    requires RefsOk(m, table) && c in table && table[c] in m
    ensures var id := table[c];
            && m[id].refCount >= 1
            && RefsOk(m[id := m[id].(refCount := m[id].refCount - 1)], table - {c})
  {
    var id := table[c];
    assert c in CellsOf(table, id);
    assert CellsOf(table - {c}, id) == CellsOf(table, id) - {c};
    assert forall j :: j != id ==> CellsOf(table - {c}, j) == CellsOf(table, j);
  }

  /** Put the id into an empty cell of the new table. */
  function AddRef(t: Tables, c: Cell, id: Id): Tables
    requires id in t.infos
  {
    t.(newTable := t.newTable[c := id], infos := t.infos[id := t.infos[id].(refCount := t.infos[id].refCount + 1)])
  }

  lemma AddRefKeeps(h: Hashes, t: Tables, limbo: set<Id>, off: int, c: Cell, id: Id)
    requires Agree(h, t, limbo, off) && c !in t.newTable
    requires id in t.infos && !t.infos[id].inTried && t.infos[id].refCount < NEW_BUCKETS_PER_ADDRESS
    requires c.bucket < NEW_BUCKET_COUNT && c == NewCell(h, t.infos[id].addr, c.bucket)
    ensures Agree(h, AddRef(t, c, id), limbo - {id}, off)
  {
    hide AddrsOk, RandomOk, TriedOk, NewOk, RefsOk, PlacedOk, RecordsOk, TriedIds, NewIds, CellsOf;
    RecordOf(h, t, limbo, off, id);
    var i := t.infos[id].(refCount := t.infos[id].refCount + 1);
    RefsAfterAdd(t.infos, t.newTable, c, id);
    AddrsFrame(t.infos, id, i, t.byAddr);
    RandomFrame(t.infos, id, i, t.random);
    TriedFrame(h, t.infos, id, i, t.tried);
    NewFrame(h, t.infos, id, i, t.newTable);
    NewGrows(h, t.infos[id := i], t.newTable, c, id);
    RestFrame(t.infos, id, i, limbo, limbo - {id}, t.nIdCount);
  }

  lemma NewGrows(h: Hashes, m: Infos, table: Table, c: Cell, id: Id)
    requires NewOk(h, m, table) && id in m && !m[id].inTried
    requires c.bucket < NEW_BUCKET_COUNT && c == NewCell(h, m[id].addr, c.bucket)
    ensures NewOk(h, m, table[c := id])
  {
  }

  lemma RefsAfterAdd(m: Infos, table: Table, c: Cell, id: Id)
    requires RefsOk(m, table) && c !in table && id in m
    ensures m[id].refCount >= 0
    ensures RefsOk(m[id := m[id].(refCount := m[id].refCount + 1)], table[c := id])
  {
    assert CellsOf(table[c := id], id) == CellsOf(table, id) + {c};
    assert forall j :: j != id ==> CellsOf(table[c := id], j) == CellsOf(table, j);
  }

  /** Take the occupant of a tried cell out of the tried table. */
  function LeaveTried(t: Tables, c: Cell): Tables
    requires c in t.tried && t.tried[c] in t.infos
  {
    var id := t.tried[c];
    t.(tried := t.tried - {c}, infos := t.infos[id := t.infos[id].(inTried := false)], nTried := t.nTried - 1)
  }

  lemma LeaveTriedKeeps(h: Hashes, t: Tables, limbo: set<Id>, off: int, c: Cell)
    requires Agree(h, t, limbo, off) && c in t.tried
    ensures t.tried[c] in t.infos && t.tried[c] !in limbo
    ensures Agree(h, LeaveTried(t, c), limbo + {t.tried[c]}, off + 1)
  {
    hide AddrsOk, RandomOk, TriedOk, NewOk, RefsOk, PlacedOk, RecordsOk, TriedIds, NewIds, CellsOf;
    var id := t.tried[c];
    TriedShrinks(h, t.infos, t.tried, c);
    RecordOf(h, t, limbo, off, id);
    var i := t.infos[id].(inTried := false);
    CountsMove(t.infos, id, i);
    AddrsFrame(t.infos, id, i, t.byAddr);
    RandomFrame(t.infos, id, i, t.random);
    NewFrame(h, t.infos, id, i, t.newTable);
    RefsFrame(t.infos, id, i, t.newTable);
    RestFrame(t.infos, id, i, limbo, limbo + {id}, t.nIdCount);
  }

  lemma CountsMove(m: Infos, id: Id, i: AddrInfo)
    requires id in m && m[id].inTried != i.inTried
    ensures |TriedIds(m[id := i])| == |TriedIds(m)| + (if i.inTried then 1 else -1)
    ensures |NewIds(m[id := i])| == |NewIds(m)| + (if i.inTried then -1 else 1)
  {
    if i.inTried {
      assert TriedIds(m[id := i]) == TriedIds(m) + {id} && NewIds(m[id := i]) == NewIds(m) - {id};
    } else {
      assert TriedIds(m[id := i]) == TriedIds(m) - {id} && NewIds(m[id := i]) == NewIds(m) + {id};
    }
  }

  lemma TriedShrinks(h: Hashes, m: Infos, tried: Table, c: Cell)
    requires TriedOk(h, m, tried) && c in tried
    ensures tried[c] in m && m[tried[c]].inTried
    ensures TriedOk(h, m[tried[c] := m[tried[c]].(inTried := false)], tried - {c})
  {
    assert forall d :: d in tried && d != c ==> tried[d] != tried[c];
  }

  /** Put a record that is in no table into its tried cell. */
  function EnterTried(h: Hashes, t: Tables, id: Id): Tables
    requires id in t.infos
  {
    t.(tried := t.tried[TriedCell(h, t.infos[id].addr) := id],
       infos := t.infos[id := t.infos[id].(inTried := true)], nTried := t.nTried + 1)
  }

  lemma EnterTriedKeeps(h: Hashes, t: Tables, limbo: set<Id>, off: int, id: Id)
    requires Agree(h, t, limbo, off) && id in limbo
    requires id in t.infos && t.infos[id].lastSuccess > 0 && TriedCell(h, t.infos[id].addr) !in t.tried
    ensures Agree(h, EnterTried(h, t, id), limbo - {id}, off - 1)
  {
    hide AddrsOk, RandomOk, TriedOk, NewOk, RefsOk, PlacedOk, RecordsOk, TriedIds, NewIds, CellsOf;
    RecordOf(h, t, limbo, off, id);
    var i := t.infos[id].(inTried := true);
    TriedGrows(h, t.infos, t.tried, id);
    CountsMove(t.infos, id, i);
    AddrsFrame(t.infos, id, i, t.byAddr);
    RandomFrame(t.infos, id, i, t.random);
    NewFrame(h, t.infos, id, i, t.newTable);
    RefsFrame(t.infos, id, i, t.newTable);
    RestFrame(t.infos, id, i, limbo, limbo - {id}, t.nIdCount);
  }

  lemma TriedGrows(h: Hashes, m: Infos, tried: Table, id: Id)
    requires TriedOk(h, m, tried) && id in m && !m[id].inTried && TriedCell(h, m[id].addr) !in tried
    ensures TriedOk(h, m[id := m[id].(inTried := true)], tried[TriedCell(h, m[id].addr) := id])
  {
  }

  /** Exchange two elements of the shuffled vector. */
  function SwapRandom(t: Tables, i: nat, j: nat): Tables
    requires i < |t.random| && j < |t.random| && t.random[i] in t.infos && t.random[j] in t.infos
  {
    if i == j then t else
    var a, b := t.random[i], t.random[j];
    t.(infos := t.infos[a := t.infos[a].(randomPos := j)][b := t.infos[b].(randomPos := i)],
       random := t.random[i := b][j := a])
  }

  lemma SwapKeeps(h: Hashes, t: Tables, limbo: set<Id>, off: int, i: nat, j: nat)
    requires Agree(h, t, limbo, off) && i < |t.random| && j < |t.random|
    ensures t.random[i] in t.infos && t.random[j] in t.infos
    ensures Agree(h, SwapRandom(t, i, j), limbo, off)
  {
    assert t.random[i] in t.infos && t.random[j] in t.infos;
    if i != j {
      RandomSwapped(t.infos, t.random, i, j);
      hide AddrsOk, RandomOk, TriedOk, NewOk, RefsOk, PlacedOk, RecordsOk, TriedIds, NewIds, CellsOf;
      var a, b := t.random[i], t.random[j];
      RepositionParts(h, t, limbo, a, j);
      RepositionParts(h, t.(infos := t.infos[a := t.infos[a].(randomPos := j)]), limbo, b, i);
    }
  }

  /** Everything but the shuffled vector, which a change of `randomPos` does not touch. */
  ghost predicate AgreeButRandom(h: Hashes, t: Tables, limbo: set<Id>) {
    && AddrsOk(t.infos, t.byAddr) && TriedOk(h, t.infos, t.tried) && NewOk(h, t.infos, t.newTable)
    && RefsOk(t.infos, t.newTable) && PlacedOk(t.infos, limbo) && RecordsOk(t.infos, t.nIdCount)
  }

  lemma RepositionParts(h: Hashes, t: Tables, limbo: set<Id>, id: Id, pos: int)
    requires AgreeButRandom(h, t, limbo) && id in t.infos
    ensures var m := t.infos[id := t.infos[id].(randomPos := pos)];
            AgreeButRandom(h, t.(infos := m), limbo) && TriedIds(m) == TriedIds(t.infos) && NewIds(m) == NewIds(t.infos)
  {
    var i := t.infos[id].(randomPos := pos);
    PlaceOf(t.infos, limbo, t.nIdCount, id);
    hide AddrsOk, RandomOk, TriedOk, NewOk, RefsOk, PlacedOk, RecordsOk, TriedIds, NewIds, CellsOf;
    AddrsFrame(t.infos, id, i, t.byAddr);
    TriedFrame(h, t.infos, id, i, t.tried);
    NewFrame(h, t.infos, id, i, t.newTable);
    RefsFrame(t.infos, id, i, t.newTable);
    RestFrame(t.infos, id, i, limbo, limbo, t.nIdCount);
  }

  lemma PlaceOf(m: Infos, limbo: set<Id>, nIdCount: int, id: Id)
    requires PlacedOk(m, limbo) && RecordsOk(m, nIdCount) && id in m
    ensures var i := m[id];
            && (if id in limbo then !i.inTried && i.refCount == 0 else i.inTried || 1 <= i.refCount <= NEW_BUCKETS_PER_ADDRESS)
            && i.lastTry >= 0 && i.lastSuccess >= 0 && (i.inTried ==> i.lastSuccess > 0 && i.refCount == 0)
  {
  }

  lemma RandomSwapped(m: Infos, v: seq<Id>, i: nat, j: nat)
    requires RandomOk(m, v) && i < |v| && j < |v| && i != j
    ensures v[i] in m && v[j] in m && v[i] != v[j]
    ensures var a, b := v[i], v[j];
            RandomOk(m[a := m[a].(randomPos := j)][b := m[b].(randomPos := i)], v[i := b][j := a])
  {
  }

  /** Forget a record that is in no table. */
  function Delete(t: Tables, id: Id): Tables
    requires id in t.infos && 0 <= t.infos[id].randomPos < |t.random|
    requires t.random[t.infos[id].randomPos] in t.infos && t.random[|t.random| - 1] in t.infos
  {
    var s := SwapRandom(t, t.infos[id].randomPos, |t.random| - 1);
    s.(random := s.random[..|s.random| - 1], byAddr := s.byAddr - {t.infos[id].addr},
       infos := s.infos - {id}, nNew := s.nNew - 1)
  }

  lemma DeleteTouches(t: Tables, id: Id)
    requires id in t.infos && 0 <= t.infos[id].randomPos < |t.random|
    requires t.random[t.infos[id].randomPos] == id && t.random[|t.random| - 1] in t.infos
    ensures Delete(t, id).infos.Keys == t.infos.Keys - {id} && Untouched(t.infos, Delete(t, id).infos, {})
    ensures |SwapRandom(t, t.infos[id].randomPos, |t.random| - 1).random| == |t.random|
  {
  }

  lemma DeleteKeeps(h: Hashes, t: Tables, limbo: set<Id>, off: int, id: Id)
    requires Agree(h, t, limbo, off) && id in limbo
    ensures id in t.infos && 0 <= t.infos[id].randomPos < |t.random|
    ensures t.random[t.infos[id].randomPos] == id && t.random[|t.random| - 1] in t.infos
    ensures Agree(h, Delete(t, id), limbo - {id}, off)
  {
    hide Agree;
    LimboKnown(h, t, limbo, off, id);
    RecordOf(h, t, limbo, off, id);
    var pos, last := t.infos[id].randomPos, |t.random| - 1;
    SwapKeeps(h, t, limbo, off, pos, last);
    LastKeeps(h, SwapRandom(t, pos, last), limbo, off, id);
  }

  lemma LimboKnown(h: Hashes, t: Tables, limbo: set<Id>, off: int, id: Id)
    requires Agree(h, t, limbo, off) && id in limbo
    ensures id in t.infos
  {
  }

  /** Forget the record at the end of the shuffled vector. */
  lemma LastKeeps(h: Hashes, s: Tables, limbo: set<Id>, off: int, id: Id)
    requires Agree(h, s, limbo, off) && id in limbo
    requires |s.random| > 0 && s.random[|s.random| - 1] == id
    ensures Agree(h, s.(random := s.random[..|s.random| - 1], byAddr := s.byAddr - {s.infos[id].addr},
                        infos := s.infos - {id}, nNew := s.nNew - 1), limbo - {id}, off)
  {
    hide AddrsOk, RandomOk, TriedOk, NewOk, RefsOk, PlacedOk, RecordsOk, TriedIds, NewIds, CellsOf;
    InLimbo(s.infos, limbo, s.newTable, id);
    NewWithout(h, s.infos, s.newTable, id);
    TriedWithout(h, s.infos, s.tried, id);
    AddrsWithout(s.infos, s.byAddr, id);
    RandomWithoutLast(s.infos, s.random);
    RestWithout(s.infos, limbo, s.newTable, s.nIdCount, id);
  }

  lemma InLimbo(m: Infos, limbo: set<Id>, table: Table, id: Id)
    requires PlacedOk(m, limbo) && RefsOk(m, table) && id in limbo
    ensures id in m && !m[id].inTried && CellsOf(table, id) == {}
  {
  }

  lemma AddrsWithout(m: Infos, byAddr: map<Service, Id>, id: Id)
    requires AddrsOk(m, byAddr) && id in m
    ensures AddrsOk(m - {id}, byAddr - {m[id].addr})
  {
  }

  lemma RestWithout(m: Infos, limbo: set<Id>, table: Table, nIdCount: int, id: Id)
    requires RefsOk(m, table) && PlacedOk(m, limbo) && RecordsOk(m, nIdCount) && id in limbo
    ensures var m' := m - {id};
            && RefsOk(m', table) && PlacedOk(m', limbo - {id}) && RecordsOk(m', nIdCount)
            && |TriedIds(m')| == |TriedIds(m)| && |NewIds(m')| == |NewIds(m)| - 1
  {
    hide CellsOf;
    assert TriedIds(m - {id}) == TriedIds(m) && NewIds(m - {id}) == NewIds(m) - {id};
  }

  lemma RandomWithoutLast(m: Infos, v: seq<Id>)
    requires RandomOk(m, v) && |v| > 0
    ensures RandomOk(m - {v[|v| - 1]}, v[..|v| - 1])
  {
  }

  lemma NewWithout(h: Hashes, m: Infos, table: Table, id: Id)
    requires NewOk(h, m, table) && CellsOf(table, id) == {}
    ensures NewOk(h, m - {id}, table)
  {
    assert forall c :: c in table ==> c in CellsOf(table, table[c]);
  }

  lemma TriedWithout(h: Hashes, m: Infos, tried: Table, id: Id)
    requires TriedOk(h, m, tried) && id in m && !m[id].inTried
    ensures TriedOk(h, m - {id}, tried)
  {
  }

  /** A new record for an address that is not known; it gets an id never used before. */
  function Create(t: Tables, i: AddrInfo): Tables {
    t.(nIdCount := t.nIdCount + 1,
       infos := t.infos[t.nIdCount := i.(randomPos := |t.random|)],
       byAddr := t.byAddr[i.addr := t.nIdCount], random := t.random + [t.nIdCount])
  }

  lemma CreateKeeps(h: Hashes, t: Tables, limbo: set<Id>, off: int, i: AddrInfo)
    requires Agree(h, t, limbo, off) && i.addr !in t.byAddr
    requires i.refCount == 0 && !i.inTried && i.lastTry >= 0 && i.lastSuccess >= 0
    ensures t.nIdCount !in t.infos
    ensures Agree(h, Create(t, i), limbo + {t.nIdCount}, off + 1)
  {
    var id, t' := t.nIdCount, Create(t, i);
    var j := i.(randomPos := |t.random|);
    assert id !in t.infos;
    CreateParts(h, t.infos, t.byAddr, t.random, t.tried, t.newTable, id, j);
    CreateRest(t.infos, limbo, t.nIdCount, j);
    hide AddrsOk, RandomOk, TriedOk, NewOk, RefsOk, PlacedOk, RecordsOk, TriedIds, NewIds, CellsOf;
  }

  lemma CreateRest(m: Infos, limbo: set<Id>, nIdCount: int, j: AddrInfo)
    requires PlacedOk(m, limbo) && RecordsOk(m, nIdCount) && nIdCount >= 0
    requires j.refCount == 0 && !j.inTried && j.lastTry >= 0 && j.lastSuccess >= 0
    ensures PlacedOk(m[nIdCount := j], limbo + {nIdCount}) && RecordsOk(m[nIdCount := j], nIdCount + 1)
  {
  }

  lemma CreateParts(h: Hashes, m: Infos, byAddr: map<Service, Id>, v: seq<Id>, tried: Table, table: Table, id: Id, j: AddrInfo)
    requires AddrsOk(m, byAddr) && RandomOk(m, v) && TriedOk(h, m, tried) && NewOk(h, m, table) && RefsOk(m, table)
    requires id !in m && j.addr !in byAddr && j.randomPos == |v| && j.refCount == 0 && !j.inTried
    ensures AddrsOk(m[id := j], byAddr[j.addr := id])
    ensures RandomOk(m[id := j], v + [id])
    ensures TriedOk(h, m[id := j], tried)
    ensures NewOk(h, m[id := j], table)
    ensures RefsOk(m[id := j], table)
    ensures TriedIds(m[id := j]) == TriedIds(m) && NewIds(m[id := j]) == NewIds(m) + {id} && id !in NewIds(m)
  {
    assert CellsOf(table, id) == {};
  }

  // ----- Operations -----

  /** Records that only differ in where the entry is placed. */
  predicate SameStats(i: AddrInfo, j: AddrInfo) {
    j == i.(refCount := j.refCount, inTried := j.inTried, randomPos := j.randomPos)
  }

  /** The records of `m'` are records of `m`; only their places may differ. */
  ghost predicate StatsKept(m: Infos, m': Infos) {
    forall id :: id in m' ==> id in m && SameStats(m[id], m'[id])
  }

  /** Outside `touched` the records of `m'` are those of `m`, up to their place in the shuffled vector. */
  ghost predicate Untouched(m: Infos, m': Infos, touched: set<Id>) {
    forall id :: id in m' && id !in touched ==> id in m && m'[id] == m[id].(randomPos := m'[id].randomPos)
  }

  lemma StatsTrans(a: Infos, b: Infos, c: Infos)
    requires StatsKept(a, b) && StatsKept(b, c)
    ensures StatsKept(a, c)
  {
  }

  lemma UntouchedIsKept(m: Infos, m': Infos)
    requires Untouched(m, m', {})
    ensures StatsKept(m, m')
  {
  }

  lemma StatsSelf(m: Infos)
    ensures StatsKept(m, m)
  {
  }

  lemma StatsMove(m: Infos, id: Id, i: AddrInfo)
    requires id in m && SameStats(m[id], i)
    ensures StatsKept(m, m[id := i])
  {
  }

  lemma StatsOf(m: Infos, m': Infos, id: Id)
    requires StatsKept(m, m') && id in m'
    ensures id in m && SameStats(m[id], m'[id])
  {
  }

  /** The id that clearing a cell of the new table forgets, if it has no other cell. */
  ghost function Forgotten(table: Table, c: Cell): set<Id> {
    if c in table && CellsOf(table, table[c]) == {c} then {table[c]} else {}
  }

  class AddrManImpl {
    const h: Hashes
    var infos: Infos
    var byAddr: map<Service, Id>
    var random: seq<Id>
    var tried: Table
    var newTable: Table
    var nTried: int
    var nNew: int
    var nIdCount: int
    var waiting: set<Id>
    var lastGood: int

    function State(): Tables
      reads this
    {
      Tables(infos, byAddr, random, tried, newTable, nTried, nNew, nIdCount, waiting)
    }

    ghost predicate Valid()
      reads this
    {
      Inv(h, State())
    }

    constructor (h: Hashes)
      ensures this.h == h && Valid() && infos == map[]
    {
      this.h := h;
      infos, byAddr, random, tried, newTable := map[], map[], [], map[], map[];
      nTried, nNew, nIdCount, waiting, lastGood := 0, 0, 0, {}, 1;
      new;
      assert TriedIds(infos) == {} && NewIds(infos) == {};
    }

    /** With the tables that a file gave. */
    constructor Loaded(h: Hashes, t: Tables)
      requires Inv(h, t)
      ensures this.h == h && Valid() && State() == t
    {
      this.h := h;
      infos, byAddr, random, tried, newTable := t.infos, t.byAddr, t.random, t.tried, t.newTable;
      nTried, nNew, nIdCount, waiting, lastGood := t.nTried, t.nNew, t.nIdCount, t.waiting, 1;
    }

    /** A record for an address that is not known. */
    method CreateEntry(i: AddrInfo) returns (id: Id)
      requires Agree(h, State(), {}, 0) && i.addr !in byAddr
      requires i.refCount == 0 && !i.inTried && i.lastTry >= 0 && i.lastSuccess >= 0
      modifies this`infos, this`random, this`byAddr, this`nIdCount
      ensures id == old(nIdCount) && id !in old(infos) && State() == Create(old(State()), i)
      ensures Agree(h, State(), {id}, 1)
    {
      hide Agree;
      CreateKeeps(h, State(), {}, 0, i);
      id := nIdCount;
      nIdCount := nIdCount + 1;
      infos := infos[id := i.(randomPos := |random|)];
      byAddr := byAddr[i.addr := id];
      random := random + [id];
      assert {} + {id} == {id};
    }

    method SwapRandomPositions(i: nat, j: nat, ghost limbo: set<Id>, ghost off: int)
      requires Agree(h, State(), limbo, off) && i < |random| && j < |random|
      modifies this`infos, this`random
      ensures State() == SwapRandom(old(State()), i, j)
      ensures Agree(h, State(), limbo, off)
    {
      hide Agree;
      SwapKeeps(h, State(), limbo, off, i, j);
      if i == j {
        return;
      }
      var a, b := random[i], random[j];
      infos := infos[a := infos[a].(randomPos := j)];
      infos := infos[b := infos[b].(randomPos := i)];
      random := random[i := b];
      random := random[j := a];
    }

    /** The record must be in no table. */
    method DeleteEntry(id: Id, ghost limbo: set<Id>, ghost off: int)
      requires Agree(h, State(), limbo, off) && id in limbo
      modifies this`infos, this`random, this`byAddr, this`nNew
      ensures Agree(h, State(), limbo - {id}, off)
      ensures infos.Keys == old(infos.Keys) - {id} && Untouched(old(infos), infos, {})
    {
      hide Agree, Untouched, SwapRandom;
      ghost var t := State();
      DeleteKeeps(h, t, limbo, off, id);
      DeleteTouches(t, id);
      var addr := infos[id].addr;
      SwapRandomPositions(infos[id].randomPos, |random| - 1, limbo, off);
      random := random[..|random| - 1];
      byAddr := byAddr - {addr};
      infos := infos - {id};
      nNew := nNew - 1;
      assert State() == Delete(t, id);
    }

    /** Clear a cell of the new table; an entry that loses its last cell is forgotten. */
    method ClearNew(c: Cell, ghost limbo: set<Id>, ghost off: int)
      requires Agree(h, State(), limbo, off)
      modifies this`infos, this`random, this`byAddr, this`nNew, this`newTable
      ensures Agree(h, State(), limbo, off)
      ensures newTable == old(newTable) - {c}
      ensures infos.Keys == old(infos.Keys) - Forgotten(old(newTable), c)
      ensures StatsKept(old(infos), infos) && Untouched(old(infos), infos, if c in old(newTable) then {old(newTable)[c]} else {})
    {
      hide Agree;
      if c in newTable {
        var id := newTable[c];
        DropRefKeeps(h, State(), limbo, off, c);
        LastCell(h, State(), limbo, off, c);
        infos := infos[id := infos[id].(refCount := infos[id].refCount - 1)];
        newTable := newTable - {c};
        if infos[id].refCount == 0 {
          DeleteEntry(id, limbo + {id}, off);
          assert limbo + {id} - {id} == limbo;
        }
      }
    }

    /** Take an entry out of every bucket of the new table, starting from its own bucket. */
    method LeaveNew(id: Id)
      requires Agree(h, State(), {}, 0) && id in infos && !infos[id].inTried
      modifies this`infos, this`newTable
      ensures Agree(h, State(), {id}, 0)
      ensures newTable == old(newTable) - CellsOf(old(newTable), id)
      ensures infos == old(infos)[id := old(infos[id]).(refCount := 0)]
    {
      hide Agree, Leaving, CellsOf, BucketAt, NewBucket, NewCell, DropRef;
      var addr := infos[id].addr;
      var start := NewBucket(h, addr, infos[id].source);
      ghost var removed: set<Cell> := {};
      LeaveBegins(h, State(), id, start);
      var n := 0;
      while n < NEW_BUCKET_COUNT && infos[id].refCount != 0
        invariant 0 <= n <= NEW_BUCKET_COUNT && id in infos && infos[id].addr == addr
        invariant Leaving(h, old(State()), State(), id, start, n, removed)
      {
        var c := NewCell(h, addr, BucketAt(start, n));
        LeaveStep(h, old(State()), State(), id, start, n, removed);
        if c in newTable && newTable[c] == id {
          ghost var t := State();
          newTable := newTable - {c};
          infos := infos[id := infos[id].(refCount := infos[id].refCount - 1)];
          removed := removed + {c};
          DropRefIs(t, c);
        }
        n := n + 1;
      }
      LeaveEnds(h, old(State()), State(), id, start, n, removed);
    }

    /** Move the occupant of a tried cell back to its own bucket of the new table. */
    method Evict(c: Cell, ghost limbo: set<Id>, ghost off: int)
      requires Agree(h, State(), limbo, off) && c in tried && tried[c] in infos
      modifies this`infos, this`random, this`byAddr, this`nNew, this`newTable, this`tried, this`nTried
      ensures Agree(h, State(), limbo, off)
      ensures tried == old(tried) - {c}
      ensures newTable == old(newTable[HomeCell(h, infos[tried[c]]) := tried[c]])
      ensures infos.Keys == old(infos.Keys) - Forgotten(old(newTable), old(HomeCell(h, infos[tried[c]])))
      ensures StatsKept(old(infos), infos)
    {
      hide Agree, StatsKept, Untouched, Forgotten, CellsOf, NewCell, NewBucket;
      var id := tried[c];
      LeaveTriedKeeps(h, State(), limbo, off, c);
      infos := infos[id := infos[id].(inTried := false)];
      tried := tried - {c};
      nTried := nTried - 1;
      ghost var m1 := infos;
      var home := HomeCell(h, infos[id]);
      HomeFits(h, infos[id]);
      ClearNew(home, limbo + {id}, off + 1);
      ghost var m2 := infos;
      LimboKnown(h, State(), limbo + {id}, off + 1, id);
      RecordOf(h, State(), limbo + {id}, off + 1, id);
      StatsOf(m1, m2, id);
      AddRefKeeps(h, State(), limbo + {id}, off + 1, home, id);
      infos := infos[id := infos[id].(refCount := 1)];
      newTable := newTable[home := id];
      assert limbo + {id} - {id} == limbo;
      Recount(h, State(), limbo, off + 1, 1);
      nNew := nNew + 1;
      StatsMove(old(infos), id, m1[id]);
      StatsMove(m2, id, infos[id]);
      StatsTrans(old(infos), m1, m2);
      StatsTrans(old(infos), m2, infos);
    }

    /** Move an entry of the new table to its tried cell; the previous occupant goes back to new. */
    method MakeTried(id: Id)
      requires Agree(h, State(), {}, 0) && id in infos && !infos[id].inTried && infos[id].lastSuccess > 0
      modifies this`infos, this`random, this`byAddr, this`nNew, this`newTable, this`tried, this`nTried
      ensures Agree(h, State(), {}, 0)
      ensures tried == old(tried[TriedCell(h, infos[id].addr) := id])
      ensures newTable == old(NewAfterMove(h, State(), id))
      ensures infos.Keys == old(infos.Keys - LostByMove(h, State(), id))
      ensures StatsKept(old(infos), infos)
    {
      hide Agree, StatsKept, Forgotten, CellsOf, NewCell, NewBucket, TriedCell;
      var cell := TriedCell(h, infos[id].addr);
      TriedOccupant(h, State(), {}, 0, cell);
      LeaveNew(id);
      ghost var m1 := infos;
      Recount(h, State(), {id}, 0, -1);
      nNew := nNew - 1;
      TriedOccupant(h, State(), {id}, 1, cell);
      if cell in tried {
        Evict(cell, {id}, 1);
      } else {
        StatsSelf(infos);
      }
      ghost var m2 := infos;
      LimboKnown(h, State(), {id}, 1, id);
      StatsOf(m1, m2, id);
      EnterTriedKeeps(h, State(), {id}, 1, id);
      tried := tried[cell := id];
      nTried := nTried + 1;
      infos := infos[id := infos[id].(inTried := true)];
      assert {id} - {id} == {};
      StatsMove(old(infos), id, m1[id]);
      StatsMove(m2, id, infos[id]);
      StatsTrans(old(infos), m1, m2);
      StatsTrans(old(infos), m2, infos);
    }

    /** Give an entry a cell of the new table, whoever holds it. */
    method Overwrite(id: Id, c: Cell, ghost limbo: set<Id>)
      requires Agree(h, State(), limbo, 0) && (c in newTable ==> newTable[c] != id)
      requires id in infos && !infos[id].inTried && infos[id].refCount < NEW_BUCKETS_PER_ADDRESS
      requires c.bucket < NEW_BUCKET_COUNT && c == NewCell(h, infos[id].addr, c.bucket)
      modifies this`infos, this`random, this`byAddr, this`nNew, this`newTable
      ensures Agree(h, State(), limbo - {id}, 0)
      ensures newTable == old(newTable)[c := id]
      ensures infos.Keys == old(infos.Keys) - Forgotten(old(newTable), c) && StatsKept(old(infos), infos)
    {
      hide Agree, StatsKept, CellsOf, NewCell;
      ClearNew(c, limbo, 0);
      ghost var m := infos;
      AddRefKeeps(h, State(), limbo, 0, c, id);
      infos := infos[id := infos[id].(refCount := infos[id].refCount + 1)];
      newTable := newTable[c := id];
      StatsMove(m, id, infos[id]);
      StatsTrans(old(infos), m, infos);
    }

    /**
     Give an entry a cell of the new table if there is room; an entry that has no other
     cell and gets none is forgotten.
     */
    method Place(id: Id, c: Cell, now: int, ghost limbo: set<Id>) returns (added: bool)
      requires id in infos && !infos[id].inTried && infos[id].refCount < NEW_BUCKETS_PER_ADDRESS
      requires Agree(h, State(), limbo, 0) && limbo == if infos[id].refCount == 0 then {id} else {}
      requires c.bucket < NEW_BUCKET_COUNT && c == NewCell(h, infos[id].addr, c.bucket)
      modifies this`infos, this`random, this`byAddr, this`nNew, this`newTable
      ensures Agree(h, State(), {}, 0)
      ensures added == old(HasRoom(State(), id, c, now))
      ensures newTable == if added then old(newTable)[c := id] else old(newTable)
      ensures infos.Keys == (if added then old(infos.Keys - Forgotten(newTable, c))
                             else if old(infos[id].refCount) == 0 then old(infos.Keys) - {id} else old(infos.Keys))
      ensures StatsKept(old(infos), infos)
    {
      hide Agree, StatsKept, Untouched, Forgotten, CellsOf, NewCell, IsTerrible;
      if c in newTable {
        OccupantOf(h, State(), limbo, 0, c);
      }
      StatsSelf(infos);
      added := c !in newTable;
      if c !in newTable || newTable[c] != id {
        if !added {
          var existing := infos[newTable[c]];
          if IsTerrible(existing, now) || (existing.refCount > 1 && infos[id].refCount == 0) {
            added := true;
          }
        }
        if added {
          Overwrite(id, c, limbo);
          assert limbo - {id} == {};
        } else if infos[id].refCount == 0 {
          DeleteEntry(id, limbo, 0);
          UntouchedIsKept(old(infos), infos);
          assert limbo - {id} == {};
        }
      }
    }

    /** Refresh the record of an announced address, or make one that has no cell yet. */
    method Claim(a: Advert, source: NetAddr, penalty: int, now: int) returns (id: Id, ghost limbo: set<Id>)
      requires Valid()
      modifies this`infos, this`random, this`byAddr, this`nNew, this`nIdCount
      ensures id == old(EntryFor(State(), a.addr)) && nIdCount >= old(nIdCount)
      ensures infos == old(infos[EntryFor(State(), a.addr) := Claimed(h, State(), a, source, penalty, now)])
      ensures limbo == (if a.addr in old(byAddr) then {} else {id}) && Agree(h, State(), limbo, 0)
    {
      hide Agree, CollisionsOk, SameAddrs, SameShape, Refreshed, Max, Penalty;
      ghost var t := State();
      ClaimedFits(h, t, a, source, penalty, now);
      var p := Penalty(h, a, source, penalty);
      if a.addr in byAddr {
        id, limbo := byAddr[a.addr], {};
        var i := Refreshed(infos[id], a, p, now);
        StatsKeep(h, t, {}, 0, id, i);
        infos := infos[id := i];
      } else {
        id := CreateEntry(Claimed(h, State(), a, source, penalty, now));
        limbo := {id};
        Recount(h, State(), limbo, 1, 1);
        nNew := nNew + 1;
      }
    }

    /**
     One announced address.  `lucky` is the outcome of the coin that makes each further
     cell of an entry less likely.
     */
    method AddSingle(a: Advert, source: NetAddr, penalty: int, now: int, lucky: bool) returns (added: bool)
      requires Valid()
      modifies this`infos, this`random, this`byAddr, this`nNew, this`newTable, this`nIdCount
      ensures Valid() && Later(old(State()), State())
      ensures added == old(Accepts(h, State(), a, source, penalty, now, lucky))
      ensures Announced(h, old(State()), State(), a, source, penalty, now, lucky)
    {
      hide Agree, StatsKept, CollisionsOk, Later, SameAddrs, SameShape, Forgotten, CellsOf, Slot, HasRoom, Refreshed, Max, Penalty;
      hide Announced;
      ghost var t := State();
      if !h.routable(a.addr) {
        LaterSelf(t);
        NotAnnounced(h, t, a, source, penalty, now, lucky);
        return false;
      }
      ClaimedFits(h, t, a, source, penalty, now);
      var known := a.addr in byAddr;
      var id: Id;
      ghost var limbo: set<Id>;
      id, limbo := Claim(a, source, penalty, now);
      ghost var m := infos;
      if known {
        var i := infos[id];
        if || a.time == 0 || (i.time != 0 && a.time <= i.time)
           || i.inTried || i.refCount == NEW_BUCKETS_PER_ADDRESS || (i.refCount > 0 && !lucky) {
          StatsSelf(m);
          LaterBy(t, m, State());
          LaterKeeps(h, t, State());
          AnnouncedBy(h, t, State(), a, source, penalty, now, lucky);
          return false;
        }
      }
      SlotFits(h, a, source);
      RoomFrame(State(), t.(infos := m), id, Slot(h, a, source), now);
      added := Place(id, Slot(h, a, source), now, limbo);
      LaterBy(t, m, State());
      LaterKeeps(h, t, State());
      AnnouncedBy(h, t, State(), a, source, penalty, now, lucky);
    }

    /** Several announced addresses; `states` has the tables before and after each. */
    method Add(adverts: seq<Advert>, source: NetAddr, penalty: int, now: int, luck: nat -> bool)
      returns (any: bool, ghost states: seq<Tables>)
      requires Valid()
      modifies this`infos, this`random, this`byAddr, this`nNew, this`newTable, this`nIdCount
      ensures Valid() && Later(old(State()), State())
      ensures |states| == |adverts| + 1 && states[0] == old(State()) && states[|adverts|] == State()
      ensures forall k :: 0 <= k < |adverts| ==>
        Announced(h, states[k], states[k + 1], adverts[k], source, penalty, now, luck(k))
      ensures any <==>
        exists k :: 0 <= k < |adverts| && Accepts(h, states[k], adverts[k], source, penalty, now, luck(k))
    {
      hide Agree, CollisionsOk, Later, Announced, Accepts;
      LaterSelf(State());
      any := false;
      states := [State()];
      for k := 0 to |adverts|
        invariant Valid() && Later(old(State()), State())
        invariant |states| == k + 1 && states[0] == old(State()) && states[k] == State()
        invariant forall j :: 0 <= j < k ==>
          Announced(h, states[j], states[j + 1], adverts[j], source, penalty, now, luck(j))
        invariant any <==>
          exists j :: 0 <= j < k && Accepts(h, states[j], adverts[j], source, penalty, now, luck(j))
      {
        ghost var t := State();
        var added := AddSingle(adverts[k], source, penalty, now, luck(k));
        any := any || added;
        LaterTrans(old(State()), t, State());
        states := states + [State()];
      }
    }

    /** A connection to `addr` worked: move the entry to tried, or let it wait for the tried cell it wants. */
    method Good(addr: Service, testBeforeEvict: bool, time: int) returns (moved: bool)
      requires Valid() && time > 0
      modifies this
      ensures Valid() && Later(old(State()), State())
      ensures lastGood == time
      ensures nIdCount == old(nIdCount)
      ensures moved == old(Moves(h, State(), addr, testBeforeEvict))
      ensures MarkedGood(h, old(State()), State(), addr, testBeforeEvict, time)
    {
      hide Agree, CollisionsOk, StatsKept, Later, SameAddrs, TriedCell, NewAfterMove, LostByMove;
      ghost var t := State();
      lastGood := time;
      moved := false;
      if addr !in byAddr {
        LaterSelf(t);
        return;
      }
      var id := byAddr[addr];
      Known(h, t, {}, 0, addr);
      RecordOf(h, t, {}, 0, id);
      SetRecord(id, Succeeded(infos[id], time));
      if infos[id].inTried {
        return;
      }
      assert infos[id].refCount > 0;
      if testBeforeEvict && TriedCell(h, addr) in tried {
        if |waiting| < SET_TRIED_COLLISION_SIZE {
          WaitKeeps(h, State(), id);
          LaterTrans(t, State(), State().(waiting := waiting + {id}));
          waiting := waiting + {id};
        }
        return;
      }
      MoveFrame(h, t, id, infos[id]);
      LaterMove(h, t, State(), id);
      ghost var m := infos;
      MakeTried(id);
      moved := true;
      LaterBy(t, m, State());
      LaterKeeps(h, t, State());
    }

    /** Change what an entry records, but not where it is. */
    method SetRecord(id: Id, i: AddrInfo)
      requires Valid() && id in infos && SameShape(infos[id], i)
      requires i.lastTry >= 0 && i.lastSuccess >= 0 && (i.inTried ==> i.lastSuccess > 0)
      modifies this`infos
      ensures Valid() && Later(old(State()), State())
      ensures infos == old(infos)[id := i]
    {
      hide Agree, CollisionsOk, StatsKept, Later, SameAddrs;
      ghost var t := State();
      StatsKeep(h, t, {}, 0, id, i);
      infos := infos[id := i];
      RecordAddrs(t, id, i);
      StatsSelf(infos);
      LaterBy(t, infos, State());
      LaterKeeps(h, t, State());
    }

    method Attempt(addr: Service, countFailure: bool, time: int)
      requires Valid() && time >= 0
      modifies this`infos
      ensures Valid() && Later(old(State()), State())
      ensures addr !in byAddr ==> infos == old(infos)
      ensures addr in byAddr ==>
        && byAddr[addr] in old(infos)
        && var i := old(infos)[byAddr[addr]];
           infos == old(infos)[byAddr[addr] :=
             if countFailure && i.lastCountAttempt < lastGood
             then i.(lastTry := time, lastCountAttempt := time, attempts := i.attempts + 1) else i.(lastTry := time)]
    {
      hide Agree, CollisionsOk, Later;
      LaterSelf(State());
      if addr in byAddr {
        Known(h, State(), {}, 0, addr);
        RecordOf(h, State(), {}, 0, byAddr[addr]);
        var i := infos[byAddr[addr]].(lastTry := time);
        if countFailure && i.lastCountAttempt < lastGood {
          i := i.(lastCountAttempt := time, attempts := i.attempts + 1);
        }
        SetRecord(byAddr[addr], i);
      }
    }

    method Connected(addr: Service, time: int)
      requires Valid()
      modifies this`infos
      ensures Valid() && Later(old(State()), State())
      ensures addr !in byAddr ==> infos == old(infos)
      ensures addr in byAddr ==>
        && byAddr[addr] in old(infos)
        && var i := old(infos)[byAddr[addr]];
           infos == if time - i.time > 20 * 60 then old(infos)[byAddr[addr] := i.(time := time)] else old(infos)
    {
      hide Agree, CollisionsOk, Later;
      LaterSelf(State());
      if addr in byAddr {
        Known(h, State(), {}, 0, addr);
        RecordOf(h, State(), {}, 0, byAddr[addr]);
        var i := infos[byAddr[addr]];
        if time - i.time > 20 * MINUTE {
          SetRecord(byAddr[addr], i.(time := time));
        }
      }
    }

    method SetServices(addr: Service, services: set<nat>)
      requires Valid()
      modifies this`infos
      ensures Valid() && Later(old(State()), State())
      ensures addr !in byAddr ==> infos == old(infos)
      ensures addr in byAddr ==>
        byAddr[addr] in old(infos) && infos == old(infos)[byAddr[addr] := old(infos)[byAddr[addr]].(services := services)]
    {
      hide Agree, CollisionsOk, Later;
      LaterSelf(State());
      if addr in byAddr {
        Known(h, State(), {}, 0, addr);
        RecordOf(h, State(), {}, 0, byAddr[addr]);
        SetRecord(byAddr[addr], infos[byAddr[addr]].(services := services));
      }
    }

    /** Decide about one waiting entry; `erase` says that it need not wait any longer. */
    method ResolveOne(id: Id, now: int) returns (erase: bool)
      requires Valid() && now > 0
      modifies this
      ensures Valid() && Later(old(State()), State()) && waiting == old(waiting)
      ensures erase == !old(Judge(h, State(), id, now)).Wait?
      ensures !old(Judge(h, State(), id, now)).Replace? ==> State() == old(State()) && lastGood == old(lastGood)
      ensures old(Judge(h, State(), id, now)).Replace? ==>
        && lastGood == now
        && id in old(infos) && MarkedGood(h, old(State()), State(), old(infos)[id].addr, false, now)
        && Won(h, old(State()), id, tried, infos, now)
      ensures id !in old(infos) || !h.valid(old(infos)[id].addr) ==> erase && State() == old(State())
      ensures id in old(infos) && h.valid(old(infos)[id].addr) ==>
        var c := TriedCell(h, old(infos)[id].addr);
        if c !in old(tried) then erase && tried == old(tried)[c := id]
        else && old(tried)[c] in old(infos)
             && var o, i := old(infos)[old(tried)[c]], old(infos)[id];
                && (now - o.lastSuccess < 4 * 3600 ==> erase && State() == old(State()))
                && (now - o.lastSuccess >= 4 * 3600 && 60 < now - o.lastTry < 4 * 3600 ==> erase && tried == old(tried)[c := id])
                && (now - o.lastSuccess >= 4 * 3600 && now - o.lastTry <= 60 ==> !erase && State() == old(State()))
                && (now - o.lastSuccess >= 4 * 3600 && now - o.lastTry >= 4 * 3600 && now - i.lastSuccess > 40 * 60 ==>
                      erase && tried == old(tried)[c := id])
                && (now - o.lastSuccess >= 4 * 3600 && now - o.lastTry >= 4 * 3600 && now - i.lastSuccess <= 40 * 60 ==>
                      !erase && State() == old(State()))
      ensures TimesKept(old(infos), infos, {id}, now)
      ensures HoldersStay(old(State()), tried, infos, now)
    {
      hide Agree, CollisionsOk, Later, StatsKept, TriedCell, NewAfterMove, LostByMove, MarkedGood, Won, TimesKept, HoldersStay;
      LaterSelf(State());
      NothingTouched(State(), now);
      erase := false;
      if id !in infos {
        erase := true;
      } else {
        var i := infos[id];
        var c := TriedCell(h, i.addr);
        TriedOccupant(h, State(), {}, 0, c);
        if !h.valid(i.addr) {
          erase := true;
        } else if c in tried {
          var occupant := infos[tried[c]];
          if now - occupant.lastSuccess < REPLACEMENT {
            erase := true;
          } else if now - occupant.lastTry < REPLACEMENT {
            if now - occupant.lastTry > MINUTE {
              Promote(id, now);
              erase := true;
            }
          } else if now - i.lastSuccess > TEST_WINDOW {
            Promote(id, now);
            erase := true;
          }
        } else {
          Promote(id, now);
          erase := true;
        }
      }
    }

    /** A waiting entry takes its tried cell, which no recently successful entry holds. */
    method Promote(id: Id, now: int)
      requires Valid() && now > 0 && id in infos
      requires var c := TriedCell(h, infos[id].addr); c in tried ==> tried[c] in infos && now - infos[tried[c]].lastSuccess >= 4 * 3600
      modifies this
      ensures Valid() && Later(old(State()), State()) && waiting == old(waiting) && lastGood == now
      ensures MarkedGood(h, old(State()), State(), old(infos)[id].addr, false, now)
      ensures tried == old(tried)[TriedCell(h, old(infos)[id].addr) := id]
      ensures Won(h, old(State()), id, tried, infos, now)
      ensures TimesKept(old(infos), infos, {id}, now) && HoldersStay(old(State()), tried, infos, now)
    {
      hide Agree, CollisionsOk, Later, StatsKept, TriedCell, NewAfterMove, LostByMove, TimesKept, HoldersStay;
      ghost var t := State();
      var i := infos[id];
      RecordOf(h, t, {}, 0, id);
      if i.inTried {
        TriedPlace(h, t, {}, 0, id);
      }
      var _ := Good(i.addr, false, now);
      TriedOccupant(h, State(), {}, 0, TriedCell(h, i.addr));
      if i.inTried {
        StatsSelf(infos);
      }
      SuccessTimes(t.infos, id, now, infos);
      CellTaken(h, t, State(), id, now);
    }

    /** Decide about every waiting entry; `judged` has the state in which each was judged. */
    method ResolveCollisions(now: int) returns (ghost judged: map<Id, Tables>)
      requires Valid() && now > 0
      modifies this
      ensures Valid() && Later(old(State()), State())
      ensures judged.Keys == old(waiting)
      ensures forall id :: id in judged ==>
        Inv(h, judged[id]) && Later(old(State()), judged[id]) && Later(judged[id], State())
      ensures forall id :: id in waiting <==> id in judged && Judge(h, judged[id], id, now).Wait?
      ensures forall id :: id in waiting <==>
        && id in judged && id in judged[id].infos && h.valid(judged[id].infos[id].addr)
        && var t, c := judged[id], TriedCell(h, judged[id].infos[id].addr);
           && c in t.tried && t.tried[c] in t.infos && now - t.infos[t.tried[c]].lastSuccess >= 4 * 3600
           && (|| now - t.infos[t.tried[c]].lastTry <= 60
               || (now - t.infos[t.tried[c]].lastTry >= 4 * 3600 && now - t.infos[id].lastSuccess <= 40 * 60))
      ensures forall id :: id in judged ==> TimesKept(old(infos), judged[id].infos, old(waiting) - {id}, now)
      ensures forall id :: id in judged && Judge(h, judged[id], id, now).Replace? ==>
        id in judged[id].infos && TriedCell(h, judged[id].infos[id].addr) in tried && tried[TriedCell(h, judged[id].infos[id].addr)] == id
      ensures forall c :: c in old(tried) && now - old(infos)[old(tried)[c]].lastSuccess < 4 * 3600 ==>
        c in tried && tried[c] == old(tried)[c]
    {
      hide Agree, CollisionsOk, Later, Judge, TimesKept, MarkedGood, Won, HoldersStay, TriedCell;
      LaterSelf(State());
      NothingTouched(State(), now);
      judged := map[];
      var rest := waiting;
      while rest != {}
        invariant Valid() && Later(old(State()), State())
        invariant rest <= old(waiting) && judged.Keys == old(waiting) - rest
        invariant forall id :: id in judged ==>
          Inv(h, judged[id]) && Later(old(State()), judged[id]) && Later(judged[id], State())
        invariant forall id :: id in waiting <==> id in rest || (id in judged && Judge(h, judged[id], id, now).Wait?)
        invariant TimesKept(old(infos), infos, old(waiting) - rest, now)
        invariant forall id :: id in judged ==> TimesKept(old(infos), judged[id].infos, old(waiting) - {id}, now)
        invariant forall id :: id in judged && Judge(h, judged[id], id, now).Replace? ==> Won(h, judged[id], id, tried, infos, now)
        invariant HoldersStay(old(State()), tried, infos, now)
        decreases rest
      {
        ghost var w: Id := AnyOf(rest);
        assert w in rest;
        var id: Id :| id in rest;
        ghost var t := State();
        var erase := ResolveOne(id, now);
        HoldersTrans(old(State()), t, tried, infos, now);
        WonStays(h, judged, t, tried, infos, now);
        TimesTrans(old(infos), t.infos, infos, old(waiting) - rest, id, now);
        TimesMore(old(infos), t.infos, old(waiting) - rest, old(waiting) - {id}, now);
        assert old(waiting) - (rest - {id}) == old(waiting) - rest + {id};
        if erase {
          EraseKeeps(h, State(), id);
          LaterTrans(t, State(), State().(waiting := waiting - {id}));
          waiting := waiting - {id};
        }
        LaterAll(judged, t, State());
        LaterTrans(old(State()), t, State());
        judged := judged[id := t];
        rest := rest - {id};
      }
      forall id | id in judged ensures WaitsBy(h, judged[id], id, now) {
        JudgeTimes(h, judged[id], id, now);
      }
      HoldersAre(h, old(State()), tried, infos, now);
      WonAre(h, judged, tried, infos, now);
    }

    /** The record that the picked waiting entry competes with, for a test connection. */
    method SelectTriedCollision(pick: Id) returns (found: bool, record: AddrInfo)
      requires Valid() && (waiting != {} ==> pick in waiting)
      modifies this`waiting
      ensures Valid()
      ensures found <==> old(waiting) != {} && pick in infos
      ensures found ==> var c := TriedCell(h, infos[pick].addr);
        waiting == old(waiting) && c in tried && tried[c] in infos && infos[tried[c]].inTried && record == infos[tried[c]]
      ensures !found ==> waiting == old(waiting) - {pick}
    {
      found, record := false, AddrInfo(0, 0, {}, 0, 0, 0, 0, 0, 0, false, -1);
      hide Agree, TriedCell;
      if waiting == {} {
        return;
      }
      if pick !in infos {
        EraseKeeps(h, State(), pick);
        waiting := waiting - {pick};
        return;
      }
      var c := TriedCell(h, infos[pick].addr);
      TriedOccupant(h, State(), {}, 0, c);
      found, record := true, infos[tried[c]];
    }

    /**
     A random selection of good entries: each at most once, no more than asked for, and if
     fewer than asked for then all there are.
     */
    method GetAddr(maxAddresses: nat, maxPct: nat, network: NetFilter, now: int, roll: nat -> nat) returns (r: seq<Service>)
      requires Valid()
      modifies this`infos, this`random
      ensures Valid() && Later(old(State()), State())
      ensures infos.Keys == old(infos.Keys) && Untouched(old(infos), infos, {})
      ensures |r| <= Limit(|random|, maxAddresses, maxPct)
      ensures forall i, j :: 0 <= i < j < |r| ==> r[i] != r[j]
      ensures forall a :: a in r ==> a in byAddr && byAddr[a] in infos && Qualifies(h, infos[byAddr[a]], network, now)
      ensures |r| < Limit(|random|, maxAddresses, maxPct) ==>
        forall a :: a in byAddr && byAddr[a] in infos && Qualifies(h, infos[byAddr[a]], network, now) ==> a in r
    {
      hide Agree, CollisionsOk, Later, Limit, Qualifies, Untouched, Chosen;
      var nodes := Limit(|random|, maxAddresses, maxPct);
      r := [];
      var n := 0;
      UntouchedSelf(infos);
      ChosenEmpty(h, infos, network, now);
      while n < |random| && |r| < nodes
        invariant 0 <= n <= |random| == |old(random)| && |r| <= nodes
        invariant Agree(h, State(), {}, 0) && infos.Keys == old(infos.Keys) && Untouched(old(infos), infos, {})
        invariant Members(infos, random[..n]) && r == Chosen(h, infos, random[..n], network, now)
      {
        var pos := n + roll(n) % (|random| - n);
        ghost var t := State();
        SwapKeeps(h, t, {}, 0, n, pos);
        SwapRandomPositions(n, pos, {}, 0);
        SwapChosen(h, t, n, pos, network, now);
        UntouchedTrans(old(infos), t.infos, infos);
        RandomMembers(h, State(), {}, 0);
        ChosenNext(h, infos, random, n, network, now);
        if Qualifies(h, infos[random[n]], network, now) {
          r := r + [infos[random[n]].addr];
        }
        n := n + 1;
      }
      ChosenFacts(h, State(), n, network, now);
      UntouchedLater(old(State()), State());
      LaterKeeps(h, old(State()), State());
    }
  }

  // ----- What the operations decide -----

  /** An address as a peer announces it. */
  datatype Advert = Advert(addr: Service, time: nat, services: set<nat>)

  function Max(a: int, b: int): int {
    if a < b then b else a
  }

  /** Bad enough to be dropped for another entry. */
  predicate IsTerrible(i: AddrInfo, now: int) {
    if i.lastTry != 0 && i.lastTry >= now - MINUTE then false
    else
      || i.time > now + 10 * MINUTE
      || i.time == 0 || now - i.time > HORIZON
      || (i.lastSuccess == 0 && i.attempts >= RETRIES)
      || (now - i.lastSuccess > MIN_FAIL && i.attempts >= MAX_FAILURES)
  }

  /** Who is terrible, in seconds; nobody is who was tried in the last minute. */
  lemma TerribleMeans(i: AddrInfo, now: int)
    ensures IsTerrible(i, now) <==>
      && (i.lastTry == 0 || now - i.lastTry > 60)
      && (|| i.time == 0 || i.time - now > 600 || now - i.time > 30 * 86400
          || (i.lastSuccess == 0 && i.attempts >= 3)
          || (now - i.lastSuccess > 7 * 86400 && i.attempts >= 10))
  {
  }

  /** The cell is free, or held by another entry that is terrible or has a cell to spare for a homeless one. */
  predicate HasRoom(t: Tables, id: Id, c: Cell, now: int)
    requires id in t.infos
  {
    c !in t.newTable ||
    (&& t.newTable[c] != id && t.newTable[c] in t.infos
     && (IsTerrible(t.infos[t.newTable[c]], now) || (t.infos[t.newTable[c]].refCount > 1 && t.infos[id].refCount == 0)))
  }

  /** How entries may change over any operation: ids and tried cells are never given back. */
  ghost predicate Later(t: Tables, t': Tables) {
    && t.nIdCount <= t'.nIdCount
    && t.tried.Keys <= t'.tried.Keys
    && (forall id :: id in t'.infos && id < t.nIdCount ==> id in t.infos && t'.infos[id].addr == t.infos[id].addr)
  }

  lemma LaterSelf(t: Tables)
    ensures Later(t, t)
  {
  }

  /** Known ids keep their address in `m`. */
  ghost predicate SameAddrs(t: Tables, m: Infos) {
    forall id :: id in m && id < t.nIdCount ==> id in t.infos && m[id].addr == t.infos[id].addr
  }

  lemma LaterBy(t: Tables, m: Infos, t': Tables)
    requires t.nIdCount <= t'.nIdCount && t.tried.Keys <= t'.tried.Keys
    requires SameAddrs(t, m) && StatsKept(m, t'.infos)
    ensures Later(t, t')
  {
  }

  lemma LaterKeeps(h: Hashes, t: Tables, t': Tables)
    requires Inv(h, t) && Agree(h, t', {}, 0) && Later(t, t') && t'.waiting <= t.waiting
    ensures Inv(h, t')
  {
    SubsetSize(t'.waiting, t.waiting);
  }

  lemma LaterTrans(a: Tables, b: Tables, c: Tables)
    requires Later(a, b) && Later(b, c)
    ensures Later(a, c)
  {
  }

  lemma RecordAddrs(t: Tables, id: Id, i: AddrInfo)
    requires id in t.infos && t.infos[id].addr == i.addr
    ensures SameAddrs(t, t.infos[id := i])
  {
  }

  lemma LaterMove(h: Hashes, t: Tables, t': Tables, id: Id)
    requires Later(t, t') && t'.nIdCount == t.nIdCount
    ensures SameAddrs(t, t'.infos)
  {
  }

  lemma MoveFrame(h: Hashes, t: Tables, id: Id, i: AddrInfo)
    requires Agree(h, t, {}, 0) && id in t.infos && t.infos[id].addr == i.addr && !t.infos[id].inTried
    ensures NewAfterMove(h, t.(infos := t.infos[id := i]), id) == NewAfterMove(h, t, id)
    ensures LostByMove(h, t.(infos := t.infos[id := i]), id) == LostByMove(h, t, id)
  {
    TriedOccupant(h, t, {}, 0, TriedCell(h, i.addr));
    hide Agree, CellsOf, Forgotten, HomeCell, TriedCell;
  }

  lemma WaitKeeps(h: Hashes, t: Tables, id: Id)
    requires Inv(h, t) && id in t.infos && TriedCell(h, t.infos[id].addr) in t.tried
    requires |t.waiting| < SET_TRIED_COLLISION_SIZE
    ensures Inv(h, t.(waiting := t.waiting + {id})) && Later(t, t.(waiting := t.waiting + {id}))
  {
    RecordOf(h, t, {}, 0, id);
  }

  /** An entry after a connection that worked. */
  function Succeeded(i: AddrInfo, time: int): AddrInfo {
    i.(lastSuccess := time, lastTry := time, attempts := 0)
  }

  /** A known entry outside tried moves there unless the cell is taken and its occupant must be tested first. */
  predicate Moves(h: Hashes, t: Tables, addr: Service, testBeforeEvict: bool) {
    && addr in t.byAddr && t.byAddr[addr] in t.infos && !t.infos[t.byAddr[addr]].inTried
    && !(testBeforeEvict && TriedCell(h, addr) in t.tried)
  }

  /** A success of an entry that stays where it is: it may have to wait for its tried cell, if few are waiting. */
  function Noted(h: Hashes, t: Tables, addr: Service, testBeforeEvict: bool, time: int): Tables {
    if addr !in t.byAddr || t.byAddr[addr] !in t.infos then t else
    var id := t.byAddr[addr];
    var t' := t.(infos := t.infos[id := Succeeded(t.infos[id], time)]);
    if t.infos[id].inTried || |t.waiting| >= SET_TRIED_COLLISION_SIZE then t' else t'.(waiting := t.waiting + {id})
  }

  /** What a success changes: the entry moves to tried, and what it displaces, or it stays where it is. */
  ghost predicate MarkedGood(h: Hashes, t: Tables, t': Tables, addr: Service, testBeforeEvict: bool, time: int) {
    if Moves(h, t, addr, testBeforeEvict) then
      var id := t.byAddr[addr];
      && t'.waiting == t.waiting
      && t'.tried == t.tried[TriedCell(h, addr) := id]
      && t'.newTable == NewAfterMove(h, t, id)
      && t'.infos.Keys == t.infos.Keys - LostByMove(h, t, id)
      && StatsKept(t.infos[id := Succeeded(t.infos[id], time)], t'.infos)
    else
      t' == Noted(h, t, addr, testBeforeEvict, time)
  }

  /**
   A success, cell by cell.  The entry's statistics are those of a success now, and nobody else's change.
   It stays where it is if it is in tried already, or if the cell is taken and the occupant must be
   tested first; then it waits, if fewer than ten do.  Otherwise it has its tried cell and no cell of
   new, and who was there goes to its home cell in new, where only an entry without another cell is forgotten.
   */
  lemma MarkedGoodMeans(h: Hashes, t: Tables, t': Tables, addr: Service, testBeforeEvict: bool, time: int)
    requires Inv(h, t) && Inv(h, t') && MarkedGood(h, t, t', addr, testBeforeEvict, time)
    ensures addr !in t.byAddr ==> t' == t
    ensures addr in t.byAddr ==>
      var id, cell := t.byAddr[addr], TriedCell(h, addr);
      && id in t.infos && id in t'.infos && t'.infos[id].addr == addr
      && t'.infos[id].lastSuccess == time && t'.infos[id].lastTry == time && t'.infos[id].attempts == 0
      && t'.infos[id].time == t.infos[id].time && t'.infos[id].services == t.infos[id].services
      && (forall x :: x in t'.infos && x != id ==>
            x in t.infos && t'.infos[x] == t.infos[x].(refCount := t'.infos[x].refCount, inTried := t'.infos[x].inTried,
                                                        randomPos := t'.infos[x].randomPos))
      && (t.infos[id].inTried || (testBeforeEvict && cell in t.tried) ==>
            && t'.tried == t.tried && t'.newTable == t.newTable && t'.infos.Keys == t.infos.Keys
            && t'.waiting == if t.infos[id].inTried || |t.waiting| >= 10 then t.waiting else t.waiting + {id})
      && (!t.infos[id].inTried && !(testBeforeEvict && cell in t.tried) ==>
            t'.waiting == t.waiting && t'.tried == t.tried[cell := id] && HasMoved(h, t, t', id))
  {
    hide Agree, CollisionsOk, TriedCell, NewAfterMove, LostByMove, HasMoved;
    if addr in t.byAddr {
      Known(h, t, {}, 0, addr);
      if Moves(h, t, addr, testBeforeEvict) {
        MovedMeans(h, t, t', t.byAddr[addr], time);
      }
    }
  }

  /** The entry is in tried and in no cell of new; who was in its tried cell has its home cell in new. */
  ghost predicate HasMoved(h: Hashes, t: Tables, t': Tables, id: Id)
    requires id in t.infos
  {
    var cell := TriedCell(h, t.infos[id].addr);
    && id in t'.infos && t'.infos[id].inTried
    && (forall c :: c in t'.newTable ==> t'.newTable[c] != id)
    && (cell !in t.tried ==> t'.infos.Keys == t.infos.Keys && SameCellsBut(t.newTable, t'.newTable, id, {}))
    && (cell in t.tried ==>
          var o := t.tried[cell];
          && o in t.infos && o in t'.infos && !t'.infos[o].inTried
          && var home := NewCell(h, t.infos[o].addr, NewBucket(h, t.infos[o].addr, t.infos[o].source));
             && home in t'.newTable && t'.newTable[home] == o
             && SameCellsBut(t.newTable, t'.newTable, id, {home})
             && (forall x :: x in t.infos ==> (x !in t'.infos <==> x != id && OnlyCell(t.newTable, x, home))))
  }

  /** The tables differ in no cell but those given, except that `id` has left its cells. */
  ghost predicate SameCellsBut(table: Table, table': Table, id: Id, but: set<Cell>) {
    forall c :: c !in but ==>
      && (c in table' <==> c in table && table[c] != id)
      && (c in table' ==> table'[c] == table[c])
  }

  /** The entry holds this cell and no other. */
  ghost predicate OnlyCell(table: Table, x: Id, c: Cell) {
    c in table && table[c] == x && forall d :: d in table && table[d] == x ==> d == c
  }

  lemma MovedMeans(h: Hashes, t: Tables, t': Tables, id: Id, time: int)
    requires Inv(h, t) && Inv(h, t') && id in t.infos && !t.infos[id].inTried
    requires t'.tried == t.tried[TriedCell(h, t.infos[id].addr) := id] && t'.newTable == NewAfterMove(h, t, id)
    requires t'.infos.Keys == t.infos.Keys - LostByMove(h, t, id)
    requires StatsKept(t.infos[id := Succeeded(t.infos[id], time)], t'.infos)
    ensures HasMoved(h, t, t', id) && id in t'.infos
  {
    hide Agree, CollisionsOk, TriedCell, NewCell, NewBucket, StatsKept, CellsOf, SameCellsBut, OnlyCell, Forgotten;
    var cell := TriedCell(h, t.infos[id].addr);
    TriedOccupant(h, t, {}, 0, cell);
    TriedOccupant(h, t', {}, 0, cell);
    var rest := t.newTable - CellsOf(t.newTable, id);
    CellsLeft(t.newTable, id);
    if cell in t.tried {
      var o := t.tried[cell];
      var home := NewCell(h, t.infos[o].addr, NewBucket(h, t.infos[o].addr, t.infos[o].source));
      assert t'.newTable == rest[home := o];
      OccupantOf(h, t', {}, 0, home);
      HomeTaken(t.newTable, rest, id, home, o);
      NobodyElse(t.newTable, id, home, t.infos.Keys, t'.infos.Keys);
    }
  }

  lemma CellsLeft(table: Table, id: Id)
    ensures var rest := table - CellsOf(table, id); SameCellsBut(table, rest, id, {}) && forall c :: c in rest ==> rest[c] != id
  {
  }

  lemma HomeTaken(table: Table, rest: Table, id: Id, home: Cell, o: Id)
    requires SameCellsBut(table, rest, id, {})
    ensures SameCellsBut(table, rest[home := o], id, {home})
  {
  }

  lemma NobodyElse(table: Table, id: Id, home: Cell, known: set<Id>, known': set<Id>)
    requires known' == known - Forgotten(table - CellsOf(table, id), home)
    ensures forall x :: x in known ==> (x !in known' <==> x != id && OnlyCell(table, x, home))
  {
    var rest := table - CellsOf(table, id);
    forall x | x in known ensures x !in known' <==> x != id && OnlyCell(table, x, home) {
      if home in rest && rest[home] == x {
        assert CellsOf(rest, x) == CellsOf(table, x);
        assert home in CellsOf(table, x);
        if OnlyCell(table, x, home) {
          assert CellsOf(table, x) == {home};
        }
        if CellsOf(table, x) == {home} {
          assert forall d :: d in table && table[d] == x ==> d in CellsOf(table, x);
        }
      }
    }
  }

  ghost function AnyOf<T>(s: set<T>): (x: T)
    requires s != {}
    ensures x in s
  {
    var x :| x in s; x
  }

  lemma LaterAll(m: map<Id, Tables>, t: Tables, t': Tables)
    requires Later(t, t')
    ensures forall id :: id in m && Later(m[id], t) ==> Later(m[id], t')
  {
    forall id | id in m && Later(m[id], t) ensures Later(m[id], t') {
      LaterTrans(m[id], t, t');
    }
  }

  lemma EraseKeeps(h: Hashes, t: Tables, id: Id)
    requires Inv(h, t)
    ensures Inv(h, t.(waiting := t.waiting - {id})) && Later(t, t.(waiting := t.waiting - {id}))
  {
    LaterSelf(t);
    LaterKeeps(h, t, t.(waiting := t.waiting - {id}));
  }

  /** An entry in tried is in its own cell. */
  lemma TriedPlace(h: Hashes, t: Tables, limbo: set<Id>, off: int, id: Id)
    requires Agree(h, t, limbo, off) && id in t.infos && t.infos[id].inTried
    ensures TriedCell(h, t.infos[id].addr) in t.tried && t.tried[TriedCell(h, t.infos[id].addr)] == id
  {
  }

  /** What becomes of an entry that waits for a tried cell. */
  datatype Verdict = Wait | Drop | Replace

  /**
   The occupant keeps its cell if it worked in the last four hours.  It loses the cell if a
   test failed, more than a minute ago, or if no test was made for forty minutes.
   */
  function Judge(h: Hashes, t: Tables, id: Id, now: int): Verdict {
    if id !in t.infos || !h.valid(t.infos[id].addr) then Drop else
    var c := TriedCell(h, t.infos[id].addr);
    if c !in t.tried || t.tried[c] !in t.infos then Replace else
    var occupant := t.infos[t.tried[c]];
    if now - occupant.lastSuccess < REPLACEMENT then Drop
    else if now - occupant.lastTry < REPLACEMENT then (if now - occupant.lastTry > MINUTE then Replace else Wait)
    else if now - t.infos[id].lastSuccess > TEST_WINDOW then Replace
    else Wait
  }

  /** What makes an entry wait on, in times. */
  ghost predicate WaitsBy(h: Hashes, t: Tables, id: Id, now: int) {
    Judge(h, t, id, now).Wait? <==>
      && id in t.infos && h.valid(t.infos[id].addr)
      && var c := TriedCell(h, t.infos[id].addr);
         && c in t.tried && t.tried[c] in t.infos && now - t.infos[t.tried[c]].lastSuccess >= 4 * 3600
         && (|| now - t.infos[t.tried[c]].lastTry <= 60
             || (now - t.infos[t.tried[c]].lastTry >= 4 * 3600 && now - t.infos[id].lastSuccess <= 40 * 60))
  }

  lemma JudgeTimes(h: Hashes, t: Tables, id: Id, now: int)
    ensures WaitsBy(h, t, id, now)
  {
    hide TriedCell;
  }

  /** Entry `o` has its tried cell and worked in the last four hours. */
  ghost predicate Holds(tried: Table, m: Infos, c: Cell, o: Id, now: int) {
    c in tried && tried[c] == o && o in m && now - m[o].lastSuccess < 4 * 3600
  }

  /** Whoever worked recently keeps its tried cell. */
  ghost predicate HoldersStay(t: Tables, tried: Table, m: Infos, now: int) {
    forall c, o :: Holds(t.tried, t.infos, c, o, now) ==> Holds(tried, m, c, o, now)
  }

  /** The entry has the tried cell it wanted. */
  ghost predicate Won(h: Hashes, t: Tables, id: Id, tried: Table, m: Infos, now: int) {
    id in t.infos && Holds(tried, m, TriedCell(h, t.infos[id].addr), id, now)
  }

  /** The times of an entry are what they were, or it is one of `ids` and succeeded now. */
  ghost predicate TimesKept(m: Infos, m': Infos, ids: set<Id>, now: int) {
    forall x :: x in m' ==>
      && x in m && m'[x].addr == m[x].addr
      && (|| (m'[x].lastSuccess == m[x].lastSuccess && m'[x].lastTry == m[x].lastTry && m'[x].attempts == m[x].attempts)
          || (x in ids && m'[x].lastSuccess == now && m'[x].lastTry == now && m'[x].attempts == 0))
  }

  lemma NothingTouched(t: Tables, now: int)
    ensures forall ids :: TimesKept(t.infos, t.infos, ids, now)
    ensures HoldersStay(t, t.tried, t.infos, now)
  {
  }

  lemma TimesMore(m: Infos, m': Infos, ids: set<Id>, more: set<Id>, now: int)
    requires TimesKept(m, m', ids, now) && ids <= more
    ensures TimesKept(m, m', more, now)
  {
  }

  lemma TimesTrans(a: Infos, b: Infos, c: Infos, ids: set<Id>, id: Id, now: int)
    requires TimesKept(a, b, ids, now) && TimesKept(b, c, {id}, now)
    ensures TimesKept(a, c, ids + {id}, now)
  {
  }

  lemma HoldersTrans(a: Tables, b: Tables, tried: Table, m: Infos, now: int)
    requires HoldersStay(a, b.tried, b.infos, now) && HoldersStay(b, tried, m, now)
    ensures HoldersStay(a, tried, m, now)
  {
    hide Holds;
  }

  lemma WonStays(h: Hashes, judged: map<Id, Tables>, t: Tables, tried: Table, m: Infos, now: int)
    requires HoldersStay(t, tried, m, now)
    ensures forall id :: id in judged && Won(h, judged[id], id, t.tried, t.infos, now) ==> Won(h, judged[id], id, tried, m, now)
  {
    hide Holds, TriedCell;
  }

  lemma HoldersAre(h: Hashes, t: Tables, tried: Table, m: Infos, now: int)
    requires Inv(h, t) && HoldersStay(t, tried, m, now)
    ensures forall c :: c in t.tried ==> t.tried[c] in t.infos
    ensures forall c :: c in t.tried && now - t.infos[t.tried[c]].lastSuccess < 4 * 3600 ==> c in tried && tried[c] == t.tried[c]
  {
    hide Agree, TriedCell;
    forall c | c in t.tried
      ensures t.tried[c] in t.infos
      ensures now - t.infos[t.tried[c]].lastSuccess < 4 * 3600 ==> c in tried && tried[c] == t.tried[c]
    {
      TriedOccupant(h, t, {}, 0, c);
      assert now - t.infos[t.tried[c]].lastSuccess < 4 * 3600 ==> Holds(t.tried, t.infos, c, t.tried[c], now);
    }
  }

  lemma WonAre(h: Hashes, judged: map<Id, Tables>, tried: Table, m: Infos, now: int)
    ensures forall id :: id in judged && Won(h, judged[id], id, tried, m, now) ==>
      && id in judged[id].infos && TriedCell(h, judged[id].infos[id].addr) in tried
      && tried[TriedCell(h, judged[id].infos[id].addr)] == id
  {
    hide TriedCell;
  }

  lemma SuccessTimes(m: Infos, id: Id, now: int, m': Infos)
    requires id in m && StatsKept(m[id := Succeeded(m[id], now)], m')
    ensures TimesKept(m, m', {id}, now) && (id in m' ==> m'[id].lastSuccess == now)
  {
  }

  /** Taking a cell that no recently successful entry holds leaves all those where they are. */
  lemma CellTaken(h: Hashes, t: Tables, t': Tables, id: Id, now: int)
    requires Inv(h, t) && Inv(h, t') && id in t.infos && TimesKept(t.infos, t'.infos, {id}, now)
    requires var c := TriedCell(h, t.infos[id].addr); c in t.tried ==> t.tried[c] in t.infos && now - t.infos[t.tried[c]].lastSuccess >= 4 * 3600
    requires t'.tried == t.tried[TriedCell(h, t.infos[id].addr) := id] && id in t'.infos && t'.infos[id].lastSuccess == now
    ensures Won(h, t, id, t'.tried, t'.infos, now) && HoldersStay(t, t'.tried, t'.infos, now)
  {
    hide Agree, TriedCell, TimesKept;
    forall c, o | Holds(t.tried, t.infos, c, o, now) ensures Holds(t'.tried, t'.infos, c, o, now) {
      TriedOccupant(h, t', {}, 0, c);
      TimesOf(t.infos, t'.infos, {id}, o, now);
    }
  }

  lemma TimesOf(m: Infos, m': Infos, ids: set<Id>, x: Id, now: int)
    requires TimesKept(m, m', ids, now)
    ensures x in m' ==> x in m && (m'[x].lastSuccess == m[x].lastSuccess || m'[x].lastSuccess == now)
  {
  }

  lemma {:induction false} SubsetSize<T>(a: set<T>, b: set<T>)
    requires a <= b
    ensures |a| <= |b|
  {
    if a != {} {
      var x :| x in a;
      SubsetSize(a - {x}, b - {x});
    }
  }

  /** The entry an announced address belongs to: the one that has it, or the next to be made. */
  function EntryFor(t: Tables, a: Service): Id {
    if a in t.byAddr then t.byAddr[a] else t.nIdCount
  }

  /** The cell of the new table that an announcement aims at. */
  function Slot(h: Hashes, a: Advert, source: NetAddr): Cell {
    NewCell(h, a.addr, NewBucket(h, a.addr, source))
  }

  /** A node that announces itself is not made to look older. */
  function Penalty(h: Hashes, a: Advert, source: NetAddr, penalty: int): int {
    if h.host(a.addr) == source then 0 else penalty
  }

  /** A known entry after it was announced once more. */
  function Refreshed(i: AddrInfo, a: Advert, penalty: int, now: int): AddrInfo {
    var interval := if now - a.time < DAY then HOUR else DAY;
    var stale := a.time != 0 && (i.time == 0 || i.time < a.time - interval - penalty);
    i.(time := if stale then Max(0, a.time - penalty) else i.time, services := i.services + a.services)
  }

  /** A known entry may get one more cell of the new table. */
  predicate MayGrow(i: AddrInfo, a: Advert, lucky: bool) {
    && a.time != 0 && (i.time == 0 || a.time > i.time)
    && !i.inTried
    && i.refCount != NEW_BUCKETS_PER_ADDRESS
    && (i.refCount == 0 || lucky)
  }

  /** The record of an announced address before it is given a cell. */
  function Claimed(h: Hashes, t: Tables, a: Advert, source: NetAddr, penalty: int, now: int): AddrInfo {
    var p := Penalty(h, a, source, penalty);
    if a.addr in t.byAddr && t.byAddr[a.addr] in t.infos then Refreshed(t.infos[t.byAddr[a.addr]], a, p, now)
    else AddrInfo(a.addr, Max(0, a.time - p), a.services, source, 0, 0, 0, 0, 0, false, |t.random|)
  }

  predicate Accepts(h: Hashes, t: Tables, a: Advert, source: NetAddr, penalty: int, now: int, lucky: bool) {
    var id, i := EntryFor(t, a.addr), Claimed(h, t, a, source, penalty, now);
    && h.routable(a.addr)
    && (a.addr in t.byAddr ==> MayGrow(i, a, lucky))
    && HasRoom(t.(infos := t.infos[id := i]), id, Slot(h, a, source), now)
  }

  /** What an announced address changes, and what it leaves. */
  ghost predicate Announced(h: Hashes, t: Tables, t': Tables, a: Advert, source: NetAddr, penalty: int, now: int,
                            lucky: bool) {
    var id, c := EntryFor(t, a.addr), Slot(h, a, source);
    var added := Accepts(h, t, a, source, penalty, now, lucky);
    && (!h.routable(a.addr) ==> t' == t)
    && t'.newTable == (if added then t.newTable[c := id] else t.newTable)
    && t'.infos.Keys == (if added then t.infos.Keys + {id} - Forgotten(t.newTable, c) else t.infos.Keys)
    && (h.routable(a.addr) ==> StatsKept(t.infos[id := Claimed(h, t, a, source, penalty, now)], t'.infos))
  }

  lemma NotAnnounced(h: Hashes, t: Tables, a: Advert, source: NetAddr, penalty: int, now: int, lucky: bool)
    requires !h.routable(a.addr)
    ensures Announced(h, t, t, a, source, penalty, now, lucky)
  {
  }

  lemma AnnouncedBy(h: Hashes, t: Tables, t': Tables, a: Advert, source: NetAddr, penalty: int, now: int, lucky: bool)
    requires h.routable(a.addr)
    requires var id, c := EntryFor(t, a.addr), Slot(h, a, source);
             var added := Accepts(h, t, a, source, penalty, now, lucky);
             && t'.newTable == (if added then t.newTable[c := id] else t.newTable)
             && t'.infos.Keys == (if added then t.infos.Keys + {id} - Forgotten(t.newTable, c) else t.infos.Keys)
             && StatsKept(t.infos[id := Claimed(h, t, a, source, penalty, now)], t'.infos)
    ensures Announced(h, t, t', a, source, penalty, now, lucky)
  {
  }

  /** The time that an announced address is recorded with; a node that announces itself is not made to look older. */
  ghost predicate TimeAfter(h: Hashes, was: Option<int>, a: Advert, source: NetAddr, penalty: int, now: int, time: int) {
    var p := if h.host(a.addr) == source then 0 else penalty;
    var claimed := if a.time - p < 0 then 0 else a.time - p;
    if was.None? then time == claimed
    else if a.time != 0 && (was.value == 0 || a.time - was.value > p + if now - a.time < 86400 then 3600 else 86400) then time == claimed
    else time == was.value
  }

  /** A known entry gets one more cell only for news, outside tried, below eight cells, and with luck. */
  ghost predicate Welcome(i: AddrInfo, time: int, a: Advert, lucky: bool) {
    a.time != 0 && (time == 0 || time < a.time) && !i.inTried && i.refCount < 8 && lucky
  }

  /** The cell is free, or its entry is another one, and terrible or able to spare it for a homeless one. */
  ghost predicate CanTake(h: Hashes, t: Tables, c: Cell, id: Id, known: bool, now: int) {
    c !in t.newTable ||
    (&& t.newTable[c] in t.infos && t.newTable[c] != id
     && (IsTerrible(t.infos[t.newTable[c]], now) || (!known && t.infos[t.newTable[c]].refCount > 1)))
  }

  /** An announced address, record by record and cell by cell. */
  lemma AnnouncedMeans(h: Hashes, t: Tables, t': Tables, a: Advert, source: NetAddr, penalty: int, now: int, lucky: bool)
    requires Inv(h, t) && Inv(h, t') && Announced(h, t, t', a, source, penalty, now, lucky) && h.routable(a.addr)
    ensures var known := a.addr in t.byAddr;
            var id, c := if known then t.byAddr[a.addr] else t.nIdCount, NewCell(h, a.addr, h.unproven(a.addr, source) % 1024);
            var added := c in t'.newTable && t'.newTable[c] == id && t'.newTable != t.newTable;
            && (known ==> id in t.infos && id in t'.infos) && (!known ==> id !in t.infos && (id in t'.infos <==> added))
            && (id in t'.infos ==>
                  && t'.infos[id].addr == a.addr
                  && TimeAfter(h, if known then Some(t.infos[id].time) else None, a, source, penalty, now, t'.infos[id].time)
                  && t'.infos[id].services == a.services + (if known then t.infos[id].services else {})
                  && t'.infos[id].source == (if known then t.infos[id].source else source)
                  && (!known ==> t'.infos[id].lastTry == t'.infos[id].lastSuccess == t'.infos[id].attempts == 0))
            && (added <==> CanTake(h, t, c, id, known, now) && (known ==> Welcome(t.infos[id], t'.infos[id].time, a, lucky)))
            && t'.newTable == (if added then t.newTable[c := id] else t.newTable)
            && (forall x :: x in t'.infos && x != id ==>
                  x in t.infos && t'.infos[x] == t.infos[x].(refCount := t'.infos[x].refCount, inTried := t'.infos[x].inTried,
                                                              randomPos := t'.infos[x].randomPos))
            && (forall x :: x in t.infos && x != id ==> (x !in t'.infos <==> added && OnlyCell(t.newTable, x, c)))
  {
    hide Agree, CollisionsOk, CellsOf, Forgotten, OnlyCell, IsTerrible, Refreshed, SameShape, SameAddrs, StatsKept;
    ClaimedFits(h, t, a, source, penalty, now);
    ClaimedTime(h, t, a, source, penalty, now);
    var known := a.addr in t.byAddr;
    var id, c := EntryFor(t, a.addr), Slot(h, a, source);
    StatsAt(t.infos[id := Claimed(h, t, a, source, penalty, now)], t'.infos);
    OnlyForgotten(t.newTable, c, t.infos.Keys);
    if c in t.newTable {
      OccupantOf(h, t, {}, 0, c);
    }
    if c in t'.newTable {
      OccupantOf(h, t', {}, 0, c);
    }
  }

  lemma StatsAt(m: Infos, m': Infos)
    requires StatsKept(m, m')
    ensures forall x :: x in m' ==> x in m && SameStats(m[x], m'[x])
  {
  }

  lemma OnlyForgotten(table: Table, c: Cell, known: set<Id>)
    ensures forall x :: x in known ==> (x in Forgotten(table, c) <==> OnlyCell(table, x, c))
  {
    forall x | x in known ensures x in Forgotten(table, c) <==> OnlyCell(table, x, c) {
      if OnlyCell(table, x, c) {
        assert CellsOf(table, x) == {c};
      }
      if x in Forgotten(table, c) {
        assert forall d :: d in table && table[d] == x ==> d in CellsOf(table, x);
      }
    }
  }

  lemma ClaimedTime(h: Hashes, t: Tables, a: Advert, source: NetAddr, penalty: int, now: int)
    requires Inv(h, t)
    ensures var known, i := a.addr in t.byAddr, Claimed(h, t, a, source, penalty, now);
            && (known ==> t.byAddr[a.addr] in t.infos)
            && TimeAfter(h, if known then Some(t.infos[t.byAddr[a.addr]].time) else None, a, source, penalty, now, i.time)
            && i.services == a.services + (if known then t.infos[t.byAddr[a.addr]].services else {})
            && i.source == (if known then t.infos[t.byAddr[a.addr]].source else source)
            && (!known ==> i.lastTry == i.lastSuccess == i.attempts == 0)
  {
    hide Agree, CollisionsOk;
    if a.addr in t.byAddr {
      Known(h, t, {}, 0, a.addr);
    }
  }

  datatype Option<T> = None | Some(value: T)

  lemma Known(h: Hashes, t: Tables, limbo: set<Id>, off: int, a: Service)
    requires Agree(h, t, limbo, off) && a in t.byAddr
    ensures t.byAddr[a] in t.infos && t.infos[t.byAddr[a]].addr == a
  {
  }

  lemma ClaimedFits(h: Hashes, t: Tables, a: Advert, source: NetAddr, penalty: int, now: int)
    requires Inv(h, t)
    ensures var id, i := EntryFor(t, a.addr), Claimed(h, t, a, source, penalty, now);
            && SameAddrs(t, t.infos[id := i]) && i.addr == a.addr
            && (a.addr !in t.byAddr ==> id !in t.infos)
            && (a.addr in t.byAddr ==>
                && id in t.infos && i == Refreshed(t.infos[id], a, Penalty(h, a, source, penalty), now)
                && SameShape(t.infos[id], i) && i.lastTry == t.infos[id].lastTry && i.lastSuccess == t.infos[id].lastSuccess
                && 0 <= i.lastTry && 0 <= i.lastSuccess && (i.inTried ==> i.lastSuccess > 0)
                && i.refCount <= NEW_BUCKETS_PER_ADDRESS && (i.inTried || i.refCount >= 1))
  {
    if a.addr in t.byAddr {
      Known(h, t, {}, 0, a.addr);
      RecordOf(h, t, {}, 0, t.byAddr[a.addr]);
    }
  }

  lemma RoomFrame(t: Tables, t': Tables, id: Id, c: Cell, now: int)
    requires id in t.infos && t.infos == t'.infos && t.newTable == t'.newTable
    ensures HasRoom(t, id, c, now) == HasRoom(t', id, c, now)
  {
  }

  lemma SlotFits(h: Hashes, a: Advert, source: NetAddr)
    ensures var c := Slot(h, a, source); c.bucket < NEW_BUCKET_COUNT && c == NewCell(h, a.addr, c.bucket)
  {
  }

  // ----- Random selection -----

  datatype NetFilter = AnyNetwork | Only(network: nat)

  predicate Qualifies(h: Hashes, i: AddrInfo, network: NetFilter, now: int) {
    (network.Only? ==> h.network(i.addr) == network.network) && !IsTerrible(i, now)
  }

  /** How many addresses to return out of `size`; zero means no bound. */
  function Limit(size: nat, maxAddresses: nat, maxPct: nat): nat {
    var n := if maxPct != 0 then maxPct * size / 100 else size;
    if maxAddresses != 0 && maxAddresses < n then maxAddresses else n
  }

  /** At most what is asked for, and at most the share, rounded down. */
  lemma LimitMeans(size: nat, maxAddresses: nat, maxPct: nat)
    ensures var n := Limit(size, maxAddresses, maxPct);
            && (maxAddresses != 0 ==> n <= maxAddresses) && (maxPct != 0 ==> 100 * n <= maxPct * size)
            && (maxPct == 0 ==> n <= size)
            && (|| (maxAddresses != 0 && n == maxAddresses) || (maxPct != 0 && 100 * (n + 1) > maxPct * size)
                || (maxPct == 0 && n == size))
  {
  }

  ghost predicate Members(m: Infos, v: seq<Id>) {
    forall k :: 0 <= k < |v| ==> v[k] in m
  }

  /** The addresses of the entries in a list that qualify. */
  ghost function Chosen(h: Hashes, m: Infos, v: seq<Id>, network: NetFilter, now: int): seq<Service>
    requires Members(m, v)
  {
    if v == [] then [] else
    var i := m[v[|v| - 1]];
    Chosen(h, m, v[..|v| - 1], network, now) + (if Qualifies(h, i, network, now) then [i.addr] else [])
  }

  lemma ChosenEmpty(h: Hashes, m: Infos, network: NetFilter, now: int)
    ensures Members(m, []) && Chosen(h, m, [], network, now) == []
  {
  }

  lemma ChosenNext(h: Hashes, m: Infos, v: seq<Id>, n: nat, network: NetFilter, now: int)
    requires n < |v| && Members(m, v)
    ensures Members(m, v[..n]) && Members(m, v[..n + 1]) && v[n] in m
    ensures Chosen(h, m, v[..n + 1], network, now)
         == Chosen(h, m, v[..n], network, now) + (if Qualifies(h, m[v[n]], network, now) then [m[v[n]].addr] else [])
  {
    assert v[..n + 1][..n] == v[..n];
  }

  lemma RandomMembers(h: Hashes, t: Tables, limbo: set<Id>, off: int)
    requires Agree(h, t, limbo, off)
    ensures Members(t.infos, t.random)
  {
  }

  lemma {:induction false} ChosenFrame(h: Hashes, m: Infos, m': Infos, v: seq<Id>, network: NetFilter, now: int)
    requires Members(m, v) && m.Keys == m'.Keys && Untouched(m, m', {})
    ensures Members(m', v) && Chosen(h, m', v, network, now) == Chosen(h, m, v, network, now)
  {
    if v != [] {
      ChosenFrame(h, m, m', v[..|v| - 1], network, now);
      var id := v[|v| - 1];
      assert id in m && m'[id] == m[id].(randomPos := m'[id].randomPos);
      assert Qualifies(h, m'[id], network, now) == Qualifies(h, m[id], network, now);
    }
  }

  lemma SwapChosen(h: Hashes, t: Tables, n: nat, pos: nat, network: NetFilter, now: int)
    requires n <= pos < |t.random| && t.random[n] in t.infos && t.random[pos] in t.infos && Members(t.infos, t.random[..n])
    ensures var t' := SwapRandom(t, n, pos);
            && t'.infos.Keys == t.infos.Keys && Untouched(t.infos, t'.infos, {})
            && |t'.random| == |t.random| && Members(t'.infos, t'.random[..n])
            && Chosen(h, t'.infos, t'.random[..n], network, now) == Chosen(h, t.infos, t.random[..n], network, now)
  {
    var t' := SwapRandom(t, n, pos);
    assert t'.random[..n] == t.random[..n];
    assert Untouched(t.infos, t'.infos, {});
    ChosenFrame(h, t.infos, t'.infos, t.random[..n], network, now);
  }

  lemma {:induction false} ChosenFrom(h: Hashes, m: Infos, v: seq<Id>, network: NetFilter, now: int, a: Service)
    requires Members(m, v)
    ensures a in Chosen(h, m, v, network, now) <==>
            exists k :: 0 <= k < |v| && m[v[k]].addr == a && Qualifies(h, m[v[k]], network, now)
  {
    hide Qualifies;
    if v != [] {
      var w := v[..|v| - 1];
      ChosenFrom(h, m, w, network, now, a);
      assert forall k :: 0 <= k < |w| ==> w[k] == v[k];
    }
  }

  lemma {:induction false} ChosenDistinct(h: Hashes, m: Infos, v: seq<Id>, network: NetFilter, now: int)
    requires Members(m, v) && (forall i, j :: 0 <= i < j < |v| ==> m[v[i]].addr != m[v[j]].addr)
    ensures var r := Chosen(h, m, v, network, now); forall i, j :: 0 <= i < j < |r| ==> r[i] != r[j]
  {
    hide Qualifies;
    if v != [] {
      var w := v[..|v| - 1];
      ChosenDistinct(h, m, w, network, now);
      ChosenFrom(h, m, w, network, now, m[v[|v| - 1]].addr);
    }
  }

  lemma ChosenFacts(h: Hashes, t: Tables, n: nat, network: NetFilter, now: int)
    requires Agree(h, t, {}, 0) && n <= |t.random| && Members(t.infos, t.random[..n])
    ensures var r := Chosen(h, t.infos, t.random[..n], network, now);
            && (forall i, j :: 0 <= i < j < |r| ==> r[i] != r[j])
            && (forall a :: a in r ==>
                  a in t.byAddr && t.byAddr[a] in t.infos && Qualifies(h, t.infos[t.byAddr[a]], network, now))
            && (n == |t.random| ==> forall a ::
                  (a in t.byAddr && t.byAddr[a] in t.infos && Qualifies(h, t.infos[t.byAddr[a]], network, now)) ==> a in r)
  {
    hide Chosen, Qualifies, Agree;
    var v, m := t.random[..n], t.infos;
    forall i, j | 0 <= i < j < n ensures m[v[i]].addr != m[v[j]].addr {
      var a, b := t.random[i], t.random[j];
      AtPosition(h, t, {}, 0, i);
      AtPosition(h, t, {}, 0, j);
      RecordOf(h, t, {}, 0, a);
      RecordOf(h, t, {}, 0, b);
    }
    ChosenDistinct(h, m, v, network, now);
    var r := Chosen(h, m, v, network, now);
    forall a | a in r
      ensures a in t.byAddr && t.byAddr[a] in m && Qualifies(h, m[t.byAddr[a]], network, now)
    {
      ChosenFrom(h, m, v, network, now, a);
      var k :| 0 <= k < |v| && m[v[k]].addr == a && Qualifies(h, m[v[k]], network, now);
      RecordOf(h, t, {}, 0, v[k]);
    }
    if n == |t.random| {
      forall a | a in t.byAddr && t.byAddr[a] in m && Qualifies(h, m[t.byAddr[a]], network, now) ensures a in r {
        Known(h, t, {}, 0, a);
        RecordOf(h, t, {}, 0, t.byAddr[a]);
        var k := m[t.byAddr[a]].randomPos;
        assert k < |v| && v[k] == t.byAddr[a];
        ChosenFrom(h, m, v, network, now, a);
      }
    }
  }

  lemma UntouchedSelf(m: Infos)
    ensures Untouched(m, m, {})
  {
  }

  lemma UntouchedTrans(a: Infos, b: Infos, c: Infos)
    requires Untouched(a, b, {}) && Untouched(b, c, {})
    ensures Untouched(a, c, {})
  {
  }

  lemma UntouchedLater(t: Tables, t': Tables)
    requires Untouched(t.infos, t'.infos, {}) && t.tried == t'.tried && t.nIdCount == t'.nIdCount
    ensures Later(t, t')
  {
  }

  /** The new table after an entry left it for tried and the entry it displaced came back. */
  ghost function NewAfterMove(h: Hashes, t: Tables, id: Id): Table
    requires id in t.infos
  {
    var rest, cell := t.newTable - CellsOf(t.newTable, id), TriedCell(h, t.infos[id].addr);
    if cell in t.tried && t.tried[cell] in t.infos then rest[HomeCell(h, t.infos[t.tried[cell]]) := t.tried[cell]]
    else rest
  }

  /** The entry that the displaced one pushes out of its last cell. */
  ghost function LostByMove(h: Hashes, t: Tables, id: Id): set<Id>
    requires id in t.infos
  {
    var rest, cell := t.newTable - CellsOf(t.newTable, id), TriedCell(h, t.infos[id].addr);
    if cell in t.tried && t.tried[cell] in t.infos then Forgotten(rest, HomeCell(h, t.infos[t.tried[cell]]))
    else {}
  }

  lemma TriedOccupant(h: Hashes, t: Tables, limbo: set<Id>, off: int, c: Cell)
    requires Agree(h, t, limbo, off)
    ensures c in t.tried ==> t.tried[c] in t.infos && t.infos[t.tried[c]].inTried && t.tried[c] !in limbo
    ensures c in t.tried ==> c == TriedCell(h, t.infos[t.tried[c]].addr)
  {
    if c in t.tried {
      RecordOf(h, t, limbo, off, t.tried[c]);
    }
  }

  lemma HomeFits(h: Hashes, i: AddrInfo)
    ensures HomeCell(h, i).bucket < NEW_BUCKET_COUNT && HomeCell(h, i) == NewCell(h, i.addr, HomeCell(h, i).bucket)
  {
  }

  /** The cell an entry has in the bucket its first source gives it. */
  function HomeCell(h: Hashes, i: AddrInfo): Cell {
    NewCell(h, i.addr, NewBucket(h, i.addr, i.source))
  }

  lemma Recount(h: Hashes, t: Tables, limbo: set<Id>, off: int, d: int)
    requires Agree(h, t, limbo, off)
    ensures Agree(h, t.(nNew := t.nNew + d), limbo, off - d)
  {
  }

  /** The bucket that comes `n` buckets after `start`, wrapping around. */
  function BucketAt(start: nat, n: nat): nat {
    (start + n) % NEW_BUCKET_COUNT
  }

  /** How many buckets after `start` a bucket comes. */
  ghost function Distance(start: nat, bucket: nat): (n: nat)
    ensures n < NEW_BUCKET_COUNT
    ensures bucket < NEW_BUCKET_COUNT ==> BucketAt(start, n) == bucket
  {
    (bucket - start) % NEW_BUCKET_COUNT
  }

  /** No cell of `id` is left in the first `n` buckets counted from `start`. */
  ghost predicate Searched(table: Table, id: Id, start: nat, n: int) {
    forall c :: c in CellsOf(table, id) ==> Distance(start, c.bucket) >= n
  }

  lemma SearchStep(h: Hashes, t: Tables, limbo: set<Id>, off: int, id: Id, start: nat, n: nat)
    requires Agree(h, t, limbo, off) && id in t.infos && Searched(t.newTable, id, start, n)
    ensures var c := NewCell(h, t.infos[id].addr, BucketAt(start, n));
            Searched(if c in t.newTable && t.newTable[c] == id then t.newTable - {c} else t.newTable, id, start, n + 1)
  {
    var c := NewCell(h, t.infos[id].addr, BucketAt(start, n));
    var table := if c in t.newTable && t.newTable[c] == id then t.newTable - {c} else t.newTable;
    forall d | d in CellsOf(table, id)
      ensures Distance(start, d.bucket) >= n + 1
    {
      assert d in CellsOf(t.newTable, id);
      OccupantOf(h, t, limbo, off, d);
    }
  }

  lemma SearchEnds(h: Hashes, t: Tables, limbo: set<Id>, off: int, id: Id, start: nat, n: nat)
    requires Agree(h, t, limbo, off) && id in t.infos && Searched(t.newTable, id, start, n)
    requires t.infos[id].refCount == 0 || n == NEW_BUCKET_COUNT
    ensures t.infos[id].refCount == 0 && CellsOf(t.newTable, id) == {}
  {
    RecordOf(h, t, limbo, off, id);
  }

  /** The state after `n` buckets, with the entry taken out of the cells in `removed`. */
  ghost predicate Leaving(h: Hashes, t0: Tables, t: Tables, id: Id, start: nat, n: nat, removed: set<Cell>) {
    && id in t0.infos && id in t.infos
    && t == t0.(newTable := t0.newTable - removed,
                infos := t0.infos[id := t0.infos[id].(refCount := t.infos[id].refCount)])
    && Agree(h, t, if t.infos[id].refCount == 0 then {id} else {}, 0)
    && removed <= CellsOf(t0.newTable, id)
    && Searched(t.newTable, id, start, n)
  }

  lemma LeaveBegins(h: Hashes, t: Tables, id: Id, start: nat)
    requires Agree(h, t, {}, 0) && id in t.infos && !t.infos[id].inTried
    ensures Leaving(h, t, t, id, start, 0, {})
  {
    RecordOf(h, t, {}, 0, id);
    hide Agree;
    assert t.newTable - {} == t.newTable;
    assert t.infos[id := t.infos[id]] == t.infos;
  }

  lemma DropRefIs(t: Tables, c: Cell)
    requires c in t.newTable && t.newTable[c] in t.infos
    ensures var id := t.newTable[c];
            DropRef(t, c) == t.(newTable := t.newTable - {c},
                                infos := t.infos[id := t.infos[id].(refCount := t.infos[id].refCount - 1)])
  {
  }

  lemma LeaveStep(h: Hashes, t0: Tables, t: Tables, id: Id, start: nat, n: nat, removed: set<Cell>)
    requires Leaving(h, t0, t, id, start, n, removed) && id in t.infos && t.infos[id].refCount != 0
    ensures var c := NewCell(h, t.infos[id].addr, BucketAt(start, n));
            if c in t.newTable && t.newTable[c] == id then Leaving(h, t0, DropRef(t, c), id, start, n + 1, removed + {c})
            else Leaving(h, t0, t, id, start, n + 1, removed)
  {
    hide Agree, Searched, CellsOf, NewCell, BucketAt;
    var c := NewCell(h, t.infos[id].addr, BucketAt(start, n));
    SearchStep(h, t, {}, 0, id, start, n);
    if c in t.newTable && t.newTable[c] == id {
      DropRefKeeps(h, t, {}, 0, c);
      RemoveOne(t0.newTable, removed, id, c);
      assert {} + {id} == {id};
      var t' := DropRef(t, c);
      assert t'.infos == t0.infos[id := t0.infos[id].(refCount := t'.infos[id].refCount)];
    }
  }

  lemma LeaveEnds(h: Hashes, t0: Tables, t: Tables, id: Id, start: nat, n: nat, removed: set<Cell>)
    requires Leaving(h, t0, t, id, start, n, removed) && id in t.infos
    requires t.infos[id].refCount == 0 || n == NEW_BUCKET_COUNT
    ensures Agree(h, t, {id}, 0) && id in t0.infos
    ensures t == t0.(newTable := t0.newTable - CellsOf(t0.newTable, id),
                     infos := t0.infos[id := t0.infos[id].(refCount := 0)])
  {
    SearchEnds(h, t, if t.infos[id].refCount == 0 then {id} else {}, 0, id, start, n);
    RemovedAll(t0.newTable, removed, id);
  }

  lemma RemoveOne(table: Table, removed: set<Cell>, id: Id, c: Cell)
    requires removed <= CellsOf(table, id) && c in table - removed && (table - removed)[c] == id
    ensures removed + {c} <= CellsOf(table, id) && table - removed - {c} == table - (removed + {c})
  {
  }

  lemma RemovedAll(table: Table, removed: set<Cell>, id: Id)
    requires removed <= CellsOf(table, id) && CellsOf(table - removed, id) == {}
    ensures removed == CellsOf(table, id)
  {
    forall c | c in CellsOf(table, id) ensures c in removed {
      assert c !in CellsOf(table - removed, id);
    }
  }

  lemma LastCell(h: Hashes, t: Tables, limbo: set<Id>, off: int, c: Cell)
    requires Agree(h, t, limbo, off) && c in t.newTable
    ensures t.newTable[c] in t.infos && t.newTable[c] !in limbo
    ensures t.infos[t.newTable[c]].refCount == 1 <==> Forgotten(t.newTable, c) == {t.newTable[c]}
    ensures t.infos[t.newTable[c]].refCount != 1 <==> Forgotten(t.newTable, c) == {}
  {
    OccupantOf(h, t, limbo, off, c);
    var cells := CellsOf(t.newTable, t.newTable[c]);
    assert c in cells && t.infos[t.newTable[c]].refCount == |cells|;
    assert |cells - {c}| == |cells| - 1;
    assert cells == {c} <==> cells - {c} == {};
  }
}
