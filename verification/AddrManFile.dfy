/**
 Saving and loading the address manager (file format V4 of src/addrman.cpp).

 A file holds the records of the new and of the tried entries and, for every bucket of the
 new table, the numbers of the new records in it.  Everything else is rebuilt.  The key and
 the hashes are those of the address manager that is saved; `restore` says that the asmap
 and the number of buckets are still the same.
 */
module AddrManFile {
  import opened AddrMan
  import opened AddrManCheck

  /** What is saved of an entry. */
  datatype Rec = Rec(addr: Service, time: int, services: set<nat>, source: NetAddr, lastSuccess: int, attempts: int)

  datatype File = File(newRecs: seq<Rec>, triedRecs: seq<Rec>, buckets: seq<seq<int>>)

  function Persist(i: AddrInfo): Rec {
    Rec(i.addr, i.time, i.services, i.source, i.lastSuccess, i.attempts)
  }

  function Fresh(r: Rec): AddrInfo {
    AddrInfo(r.addr, r.time, r.services, r.source, 0, 0, r.lastSuccess, r.attempts, 0, false, -1)
  }

  // ----- Saving -----

  /** Which entries belong to the first and to the second list of records. */
  predicate Listed(i: AddrInfo, tried: bool) {
    if tried then i.inTried else i.refCount != 0
  }

  function Records(m: Infos, order: seq<Id>, tried: bool): seq<Rec>
    requires Members(m, order)
  {
    if order == [] then [] else
    var i := m[order[|order| - 1]];
    Records(m, order[..|order| - 1], tried) + (if Listed(i, tried) then [Persist(i)] else [])
  }

  /** The number each entry gets: how many new records come before it. */
  function Numbers(m: Infos, order: seq<Id>): map<Id, int>
    requires Members(m, order)
  {
    if order == [] then map[] else
    var rest := order[..|order| - 1];
    Numbers(m, rest)[order[|order| - 1] := |Records(m, rest, false)|]
  }

  /** The numbers of the entries in the first `i` cells of a bucket. */
  function Row(table: Table, numbers: map<Id, int>, bucket: nat, i: nat): seq<int> {
    if i == 0 then [] else
    var c := Cell(bucket, i - 1);
    Row(table, numbers, bucket, i - 1) + (if c in table && table[c] in numbers then [numbers[table[c]]] else [])
  }

  function Rows(table: Table, numbers: map<Id, int>, n: nat): seq<seq<int>> {
    if n == 0 then [] else Rows(table, numbers, n - 1) + [Row(table, numbers, n - 1, BUCKET_SIZE)]
  }

  function Saved(t: Tables, order: seq<Id>): File
    requires Members(t.infos, order)
  {
    File(Records(t.infos, order, false), Records(t.infos, order, true),
         Rows(t.newTable, Numbers(t.infos, order), NEW_BUCKET_COUNT))
  }

  /** `order` lists every entry once: the order in which the records are met. */
  ghost predicate Enumerates(m: Infos, order: seq<Id>) {
    Distinct(order) && Elements(order) == m.Keys
  }

  // ----- Loading -----

  function LoadNew(t: Tables, recs: seq<Rec>): Tables {
    if recs == [] then t else Create(LoadNew(t, recs[..|recs| - 1]), Fresh(recs[|recs| - 1]))
  }

  /** A tried record is lost if its address is not valid or its cell is taken. */
  function LoadOneTried(h: Hashes, t: Tables, r: Rec): Tables {
    if h.valid(r.addr) && TriedCell(h, r.addr) !in t.tried then EnterTried(h, Create(t, Fresh(r)), t.nIdCount) else t
  }

  function LoadTried(h: Hashes, t: Tables, recs: seq<Rec>): Tables {
    if recs == [] then t else LoadOneTried(h, LoadTried(h, t, recs[..|recs| - 1]), recs[|recs| - 1])
  }

  /** Put a new record into a bucket, or into its home bucket if that fails. */
  function LoadEntry(h: Hashes, t: Tables, count: int, restore: bool, bucket: nat, e: int): Tables {
    if e < 0 || e >= count || e !in t.infos then t else
    var i := t.infos[e];
    if !h.valid(i.addr) || i.refCount >= NEW_BUCKETS_PER_ADDRESS then t else
    var c, home := NewCell(h, i.addr, bucket), HomeCell(h, i);
    if restore && c !in t.newTable then AddRef(t, c, e)
    else if home !in t.newTable then AddRef(t, home, e)
    else t
  }

  function LoadRow(h: Hashes, t: Tables, count: int, restore: bool, bucket: nat, row: seq<int>): Tables {
    if row == [] then t else
    LoadEntry(h, LoadRow(h, t, count, restore, bucket, row[..|row| - 1]), count, restore, bucket, row[|row| - 1])
  }

  function LoadRows(h: Hashes, t: Tables, count: int, restore: bool, rows: seq<seq<int>>): Tables {
    if rows == [] then t else
    LoadRow(h, LoadRows(h, t, count, restore, rows[..|rows| - 1]), count, restore, |rows| - 1, rows[|rows| - 1])
  }

  function Empty(nNew: nat): Tables {
    Tables(map[], map[], [], map[], map[], 0, nNew, 0, {})
  }

  /** The tables before entries without a place are pruned. */
  function Loaded(h: Hashes, f: File, restore: bool): Tables {
    var t1 := LoadNew(Empty(|f.newRecs|), f.newRecs);
    var t2 := LoadTried(h, t1, f.triedRecs);
    LoadRows(h, t2, |f.newRecs|, restore, f.buckets)
  }

  // ----- What is loaded is what was saved -----

  /** Entries that have the same place and agree on everything that is saved. */
  predicate SameEntry(i: AddrInfo, j: AddrInfo) {
    && i.addr == j.addr && i.time == j.time && i.services == j.services && i.source == j.source
    && i.lastSuccess == j.lastSuccess && i.attempts == j.attempts && i.inTried == j.inTried
  }

  /** The entries `done` were loaded as `f` says, and nothing else was. */
  ghost predicate Copies(m: Infos, done: set<Id>, f: map<Id, Id>, m': Infos) {
    && done <= m.Keys && f.Keys == done
    && (forall id :: id in done ==> f[id] in m' && SameEntry(m[id], m'[f[id]]))
    && (forall j :: j in m' ==> exists id :: id in done && f[id] == j)
  }

  lemma CopiesNext(m: Infos, done: set<Id>, f: map<Id, Id>, m': Infos, id: Id, j: Id, i: AddrInfo)
    requires Copies(m, done, f, m') && id in m && id !in done && j !in m' && SameEntry(m[id], i)
    ensures Copies(m, done + {id}, f[id := j], m'[j := i])
  {
    var f', done', m2 := f[id := j], done + {id}, m'[j := i];
    forall k | k in m2 ensures exists x :: x in done' && f'[x] == k {
      if k == j {
        assert f'[id] == k;
      } else {
        var x :| x in done && f[x] == k;
        assert f'[x] == k;
      }
    }
  }

  lemma LoadedFrom(m: Infos, done: set<Id>, f: map<Id, Id>, m': Infos, j: Id) returns (x: Id)
    requires Copies(m, done, f, m') && j in m'
    ensures x in done && x in m && x in f && f[x] == j && SameEntry(m[x], m'[j])
  {
    x :| x in done && f[x] == j;
  }

  /** An address that was not loaded yet is not known, and its tried cell is free. */
  lemma NotLoaded(h: Hashes, t: Tables, done: set<Id>, f: map<Id, Id>, t': Tables, limbo: set<Id>, off: int, id: Id)
    requires Inv(h, t) && Agree(h, t', limbo, off) && Copies(t.infos, done, f, t'.infos) && id in t.infos && id !in done
    ensures t.infos[id].addr !in t'.byAddr
    ensures t.infos[id].inTried ==> TriedCell(h, t.infos[id].addr) !in t'.tried
  {
    var a := t.infos[id].addr;
    RecordOf(h, t, {}, 0, id);
    hide Agree, Copies;
    if a in t'.byAddr {
      Known(h, t', limbo, off, a);
      var x := LoadedFrom(t.infos, done, f, t'.infos, t'.byAddr[a]);
      RecordOf(h, t, {}, 0, x);
    }
    if t.infos[id].inTried && TriedCell(h, a) in t'.tried {
      TriedPlace(h, t, {}, 0, id);
      TriedOccupant(h, t', limbo, off, TriedCell(h, a));
      var x := LoadedFrom(t.infos, done, f, t'.infos, t'.tried[TriedCell(h, a)]);
      TriedPlace(h, t, {}, 0, x);
    }
  }

  /** The ids in a list that are in tried, or that are not. */
  ghost function Part(m: Infos, order: seq<Id>, tried: bool): set<Id>
    requires Members(m, order)
  {
    set k | 0 <= k < |order| && m[order[k]].inTried == tried :: order[k]
  }

  /** The ids that the new entries of a list are loaded under. */
  ghost function NewNames(m: Infos, order: seq<Id>): map<Id, Id>
    requires Members(m, order)
  {
    if order == [] then map[] else
    var rest, id := order[..|order| - 1], order[|order| - 1];
    if m[id].inTried then NewNames(m, rest) else NewNames(m, rest)[id := |Records(m, rest, false)|]
  }

  lemma PartNext(m: Infos, order: seq<Id>, tried: bool)
    requires order != [] && Members(m, order) && Distinct(order)
    ensures var rest, id := order[..|order| - 1], order[|order| - 1];
            && Members(m, rest) && Distinct(rest) && id in m && id !in Part(m, rest, tried)
            && Part(m, order, tried) == Part(m, rest, tried) + if m[id].inTried == tried then {id} else {}
  {
    var rest, id := order[..|order| - 1], order[|order| - 1];
    assert order == rest + [id];
    forall x ensures x in Part(m, order, tried) <==> x in Part(m, rest, tried) + if m[id].inTried == tried then {id} else {} {
      if x in Part(m, rest, tried) {
        var k :| 0 <= k < |rest| && m[rest[k]].inTried == tried && rest[k] == x;
        assert order[k] == x;
      }
    }
  }

  /** The first phase, after the new entries `done`: they have no cell yet. */
  ghost predicate NewDone(h: Hashes, t: Tables, done: set<Id>, f: map<Id, Id>, count: int, p: Tables) {
    && Copies(t.infos, done, f, p.infos)
    && Agree(h, p, p.infos.Keys, p.nIdCount - count)
    && p.newTable == map[] && p.tried == map[] && p.nTried == 0 && p.nNew == count && p.waiting == {}
  }

  lemma NewDoneStep(h: Hashes, t: Tables, done: set<Id>, f: map<Id, Id>, count: int, p: Tables, id: Id)
    requires Inv(h, t) && NewDone(h, t, done, f, count, p) && id in t.infos && id !in done && !t.infos[id].inTried
    ensures NewDone(h, t, done + {id}, f[id := p.nIdCount], count, Create(p, Fresh(Persist(t.infos[id]))))
  {
    var i := Fresh(Persist(t.infos[id]));
    RecordOf(h, t, {}, 0, id);
    NotLoaded(h, t, done, f, p, p.infos.Keys, p.nIdCount - count, id);
    hide Agree, Copies, Inv;
    CreateKeeps(h, p, p.infos.Keys, p.nIdCount - count, i);
    CopiesNext(t.infos, done, f, p.infos, id, p.nIdCount, i.(randomPos := |p.random|));
    assert Create(p, i).infos.Keys == p.infos.Keys + {p.nIdCount};
  }

  lemma {:induction false} NewPhase(h: Hashes, t: Tables, order: seq<Id>, count: nat)
    requires Inv(h, t) && Members(t.infos, order) && Distinct(order)
    ensures var recs := Records(t.infos, order, false); var p := LoadNew(Empty(count), recs);
            && NewDone(h, t, Part(t.infos, order, false), NewNames(t.infos, order), count, p)
            && p.nIdCount == |recs|
  {
    hide NewDone, Inv, Part, Distinct, Records, NewNames, LoadNew, Create, Fresh, Persist;
    var m := t.infos;
    if order == [] {
      NoneNew(h, t, count);
    } else {
      var rest, id := order[..|order| - 1], order[|order| - 1];
      PartNext(m, order, false);
      ListNext(h, t, order);
      NewPhase(h, t, rest, count);
      if !m[id].inTried {
        var recs := Records(m, rest, false);
        LoadNewNext(Empty(count), recs, Persist(m[id]));
        NewDoneStep(h, t, Part(m, rest, false), NewNames(m, rest), count, LoadNew(Empty(count), recs), id);
        CreateId(LoadNew(Empty(count), recs), Fresh(Persist(m[id])));
      } else {
        assert Part(m, rest, false) + {} == Part(m, rest, false);
      }
    }
  }

  lemma CreateId(t: Tables, i: AddrInfo)
    ensures Create(t, i).nIdCount == t.nIdCount + 1
  {
  }

  lemma ListNext(h: Hashes, t: Tables, order: seq<Id>)
    requires Inv(h, t) && order != [] && Members(t.infos, order)
    ensures var rest, id, m := order[..|order| - 1], order[|order| - 1], t.infos;
            && Members(m, rest)
            && Records(m, order, m[id].inTried) == Records(m, rest, m[id].inTried) + [Persist(m[id])]
            && Records(m, order, !m[id].inTried) == Records(m, rest, !m[id].inTried)
            && (m[id].inTried ==> NewNames(m, order) == NewNames(m, rest))
            && (!m[id].inTried ==> NewNames(m, order) == NewNames(m, rest)[id := |Records(m, rest, false)|])
            && Numbers(m, order) == Numbers(m, rest)[id := |Records(m, rest, false)|]
  {
    RecordOf(h, t, {}, 0, order[|order| - 1]);
    hide Inv;
  }

  lemma EmptyIsNew(h: Hashes, t: Tables, count: nat)
    ensures NewDone(h, t, {}, map[], count, Empty(count))
  {
    assert TriedIds(map[]) == {} && NewIds(map[]) == {};
  }

  lemma NoneNew(h: Hashes, t: Tables, count: nat)
    ensures Members(t.infos, []) && Records(t.infos, [], false) == [] && LoadNew(Empty(count), []).nIdCount == 0
    ensures NewDone(h, t, Part(t.infos, [], false), NewNames(t.infos, []), count, LoadNew(Empty(count), []))
  {
    EmptyIsNew(h, t, count);
    hide NewDone;
    assert Part(t.infos, [], false) == {};
  }

  lemma LoadNewNext(t: Tables, recs: seq<Rec>, r: Rec)
    ensures LoadNew(t, recs + [r]) == Create(LoadNew(t, recs), Fresh(r))
  {
    assert (recs + [r])[..|recs|] == recs;
  }

  /** The second phase, after the new and some tried entries; the new ones, `limbo`, have no cell yet. */
  ghost predicate TriedDone(h: Hashes, t: Tables, done: set<Id>, f: map<Id, Id>, limbo: set<Id>, off: int, p: Tables) {
    Copies(t.infos, done, f, p.infos) && Agree(h, p, limbo, off) && p.newTable == map[] && p.waiting == {}
  }

  lemma TriedRecord(h: Hashes, t: Tables, id: Id)
    requires Inv(h, t) && id in t.infos && t.infos[id].inTried
    ensures t.infos[id].lastTry >= 0 && t.infos[id].lastSuccess > 0 && t.infos[id].refCount == 0
  {
    RecordOf(h, t, {}, 0, id);
  }

  lemma TriedDoneStep(h: Hashes, t: Tables, done: set<Id>, f: map<Id, Id>, limbo: set<Id>, off: int, p: Tables, id: Id)
    requires Inv(h, t) && TriedDone(h, t, done, f, limbo, off, p)
    requires id in t.infos && id !in done && t.infos[id].inTried && h.valid(t.infos[id].addr)
    ensures var p' := LoadOneTried(h, p, Persist(t.infos[id]));
            TriedDone(h, t, done + {id}, f[id := p.nIdCount], limbo, off, p') && p'.nIdCount == p.nIdCount + 1
  {
    hide Agree, Copies, Inv, TriedCell;
    var i := Fresh(Persist(t.infos[id]));
    TriedRecord(h, t, id);
    NotLoaded(h, t, done, f, p, limbo, off, id);
    CreateKeeps(h, p, limbo, off, i);
    var p1 := Create(p, i);
    LimboFresh(h, p, limbo, off);
    EnterTriedKeeps(h, p1, limbo + {p.nIdCount}, off + 1, p.nIdCount);
    assert limbo + {p.nIdCount} - {p.nIdCount} == limbo;
    var j := i.(randomPos := |p.random|, inTried := true);
    assert EnterTried(h, p1, p.nIdCount).infos == p.infos[p.nIdCount := j];
    CopiesNext(t.infos, done, f, p.infos, id, p.nIdCount, j);
  }

  lemma LimboFresh(h: Hashes, t: Tables, limbo: set<Id>, off: int)
    requires Agree(h, t, limbo, off)
    ensures t.nIdCount !in limbo && t.nIdCount !in t.infos
  {
  }

  /** The ids that the tried entries of a list are loaded under, after those of `f`. */
  ghost function TriedNames(m: Infos, order: seq<Id>, f: map<Id, Id>, base: int): map<Id, Id>
    requires Members(m, order)
  {
    if order == [] then f else
    var rest, id := order[..|order| - 1], order[|order| - 1];
    if m[id].inTried then TriedNames(m, rest, f, base)[id := base + |Records(m, rest, true)|]
    else TriedNames(m, rest, f, base)
  }

  lemma {:induction false} TriedPhase(h: Hashes, t: Tables, order: seq<Id>, done: set<Id>, f: map<Id, Id>,
                                      limbo: set<Id>, off: int, p: Tables)
    requires Inv(h, t) && Members(t.infos, order) && Distinct(order) && AllValid(h, t.infos)
    requires TriedDone(h, t, done, f, limbo, off, p) && done !! Part(t.infos, order, true)
    ensures var recs := Records(t.infos, order, true); var p' := LoadTried(h, p, recs);
            && TriedDone(h, t, done + Part(t.infos, order, true), TriedNames(t.infos, order, f, p.nIdCount), limbo, off, p')
            && p'.nIdCount == p.nIdCount + |recs|
  {
    hide *;
    var m := t.infos;
    if order == [] {
      NothingListed(h, p, m, f, p.nIdCount);
      assert done + {} == done;
    } else {
      var rest, id := order[..|order| - 1], order[|order| - 1];
      PartNext(m, order, true);
      ListNext(h, t, order);
      TriedNamesNext(m, order, f, p.nIdCount);
      TriedPhase(h, t, rest, done, f, limbo, off, p);
      if m[id].inTried {
        var recs, names := Records(m, rest, true), TriedNames(m, rest, f, p.nIdCount);
        assert id in Part(m, order, true);
        IsValid(h, m, id);
        LoadTriedNext(h, p, recs, Persist(m[id]));
        TriedDoneStep(h, t, done + Part(m, rest, true), names, limbo, off, LoadTried(h, p, recs), id);
        assert done + Part(m, rest, true) + {id} == done + Part(m, order, true);
      } else {
        assert Part(m, rest, true) + {} == Part(m, rest, true);
      }
    }
  }

  lemma NothingListed(h: Hashes, p: Tables, m: Infos, f: map<Id, Id>, base: int)
    ensures Members(m, []) && Part(m, [], true) == {} && Records(m, [], true) == []
    ensures LoadTried(h, p, []) == p && TriedNames(m, [], f, base) == f
  {
  }

  lemma IsValid(h: Hashes, m: Infos, id: Id)
    requires AllValid(h, m) && id in m
    ensures h.valid(m[id].addr)
  {
  }

  lemma TriedNamesNext(m: Infos, order: seq<Id>, f: map<Id, Id>, base: int)
    requires Members(m, order) && order != []
    ensures var rest, id := order[..|order| - 1], order[|order| - 1];
            && Members(m, rest)
            && TriedNames(m, order, f, base) == if m[id].inTried then TriedNames(m, rest, f, base)[id := base + |Records(m, rest, true)|]
                                                else TriedNames(m, rest, f, base)
  {
  }

  ghost predicate AllValid(h: Hashes, m: Infos) {
    forall id :: id in m ==> h.valid(m[id].addr)
  }

  lemma LoadTriedNext(h: Hashes, t: Tables, recs: seq<Rec>, r: Rec)
    ensures LoadTried(h, t, recs + [r]) == LoadOneTried(h, LoadTried(h, t, recs), r)
  {
    assert (recs + [r])[..|recs|] == recs;
  }

  /** New entries are loaded under the numbers that the buckets use. */
  lemma {:induction false} NamesAreNumbers(h: Hashes, t: Tables, order: seq<Id>, id: Id)
    requires Inv(h, t) && Members(t.infos, order) && Distinct(order) && id in Part(t.infos, order, false)
    ensures id in NewNames(t.infos, order) && id in Numbers(t.infos, order)
    ensures NewNames(t.infos, order)[id] == Numbers(t.infos, order)[id]
    ensures 0 <= Numbers(t.infos, order)[id] < |Records(t.infos, order, false)|
  {
    PartNext(t.infos, order, false);
    ListNext(h, t, order);
    hide Inv, Part, Distinct;
    if id != order[|order| - 1] {
      NamesAreNumbers(h, t, order[..|order| - 1], id);
    }
  }

  lemma {:induction false} TriedNamesKeep(m: Infos, order: seq<Id>, f: map<Id, Id>, base: int, id: Id)
    requires Members(m, order) && id in m && !m[id].inTried && id in f
    ensures id in TriedNames(m, order, f, base) && TriedNames(m, order, f, base)[id] == f[id]
  {
    if order != [] {
      TriedNamesKeep(m, order[..|order| - 1], f, base, id);
    }
  }

  /** Entries outside tried that have no cell. */
  ghost function Homeless(m: Infos): set<Id> {
    set id | id in m && !m[id].inTried && m[id].refCount == 0
  }

  /** A part of the new table was loaded, each cell with the copy of the entry it held. */
  ghost predicate CellsCopied(part: Table, f: map<Id, Id>, table: Table) {
    table.Keys == part.Keys && forall c :: c in part ==> part[c] in f && table[c] == f[part[c]]
  }

  /** The third phase, after the cells of `part`. */
  ghost predicate RowsDone(h: Hashes, t: Tables, f: map<Id, Id>, part: Table, p: Tables) {
    && Copies(t.infos, t.infos.Keys, f, p.infos)
    && Agree(h, p, Homeless(p.infos), 0)
    && CellsCopied(part, f, p.newTable) && p.waiting == {}
  }

  /** Different entries have different copies. */
  lemma CopiesInjective(h: Hashes, t: Tables, f: map<Id, Id>, m': Infos, a: Id, b: Id)
    requires Inv(h, t) && Copies(t.infos, t.infos.Keys, f, m') && a in t.infos && b in t.infos && f[a] == f[b]
    ensures a == b
  {
    RecordOf(h, t, {}, 0, a);
    RecordOf(h, t, {}, 0, b);
    hide Inv;
  }

  /** A copy is in as many cells as the original. */
  lemma SameCells(h: Hashes, t: Tables, f: map<Id, Id>, part: Table, m': Infos, table: Table, id: Id)
    requires Inv(h, t) && Copies(t.infos, t.infos.Keys, f, m') && CellsCopied(part, f, table) && id in t.infos
    requires forall c :: c in part ==> part[c] in t.infos
    ensures CellsOf(table, f[id]) == CellsOf(part, id)
  {
    hide Inv, Copies;
    CopyOf(t.infos, f, m', id);
    forall c ensures c in CellsOf(table, f[id]) <==> c in CellsOf(part, id) {
      if c in part && table[c] == f[id] {
        CopiesInjective(h, t, f, m', part[c], id);
      }
    }
  }

  lemma CopyOf(m: Infos, f: map<Id, Id>, m': Infos, id: Id)
    requires Copies(m, m.Keys, f, m') && id in m
    ensures id in f && f[id] in m' && SameEntry(m[id], m'[f[id]])
  {
  }

  /** The next cell is free, and its entry still has a cell to come. */
  lemma EntryFits(h: Hashes, t: Tables, f: map<Id, Id>, b: nat, i: nat, p: Tables)
    requires Inv(h, t) && RowsDone(h, t, f, Upto(t.newTable, b, i), p) && AllValid(h, t.infos)
    requires Cell(b, i) in t.newTable
    ensures var c := Cell(b, i); var id := t.newTable[c];
            && b < NEW_BUCKET_COUNT && id in f && f[id] in p.infos && c !in p.newTable
            && var j := p.infos[f[id]];
               !j.inTried && h.valid(j.addr) && 0 <= j.refCount < NEW_BUCKETS_PER_ADDRESS && c == NewCell(h, j.addr, b)
  {
    hide Agree, Copies, AllValid, Homeless, CollisionsOk;
    var c, part := Cell(b, i), Upto(t.newTable, b, i);
    var id := t.newTable[c];
    OccupantOf(h, t, {}, 0, c);
    RecordOf(h, t, {}, 0, id);
    CopyOf(t.infos, f, p.infos, id);
    IsValid(h, t.infos, id);
    RecordOf(h, p, Homeless(p.infos), 0, f[id]);
    forall d | d in part ensures part[d] in t.infos {
      OccupantOf(h, t, {}, 0, d);
    }
    SameCells(h, t, f, part, p.infos, p.newTable, id);
    assert CellsOf(part, id) + {c} <= CellsOf(t.newTable, id) && c !in CellsOf(part, id);
    SubsetSize(CellsOf(part, id) + {c}, CellsOf(t.newTable, id));
  }

  lemma HomelessNext(p: Tables, c: Cell, e: Id)
    requires e in p.infos && p.infos[e].refCount >= 0
    ensures Homeless(AddRef(p, c, e).infos) == Homeless(p.infos) - {e}
  {
  }

  lemma CopiesRef(m: Infos, f: map<Id, Id>, m': Infos, e: Id, i: AddrInfo)
    requires Copies(m, m.Keys, f, m') && e in m' && SameEntry(m'[e], i)
    ensures Copies(m, m.Keys, f, m'[e := i])
  {
  }

  lemma CellsNext(part: Table, f: map<Id, Id>, table: Table, c: Cell, id: Id)
    requires CellsCopied(part, f, table) && id in f
    ensures CellsCopied(part[c := id], f, table[c := f[id]])
  {
  }

  lemma RowsDoneStep(h: Hashes, t: Tables, f: map<Id, Id>, b: nat, i: nat, p: Tables, count: int)
    requires Inv(h, t) && RowsDone(h, t, f, Upto(t.newTable, b, i), p) && AllValid(h, t.infos)
    requires Cell(b, i) in t.newTable && t.newTable[Cell(b, i)] in f && 0 <= f[t.newTable[Cell(b, i)]] < count
    ensures RowsDone(h, t, f, Upto(t.newTable, b, i + 1), LoadEntry(h, p, count, true, b, f[t.newTable[Cell(b, i)]]))
  {
    hide Inv, Agree, Copies, CellsCopied, Upto, Homeless, AllValid, NewCell, HomeCell;
    var c, part := Cell(b, i), Upto(t.newTable, b, i);
    var id := t.newTable[c];
    var e := f[id];
    UptoNext(t.newTable, b, i);
    EntryFits(h, t, f, b, i, p);
    AddRefKeeps(h, p, Homeless(p.infos), 0, c, e);
    assert LoadEntry(h, p, count, true, b, e) == AddRef(p, c, e);
    HomelessNext(p, c, e);
    CopiesRef(t.infos, f, p.infos, e, p.infos[e].(refCount := p.infos[e].refCount + 1));
    CellsNext(part, f, p.newTable, c, id);
  }

  /** What the third phase needs of the numbers in the buckets. */
  ghost predicate NumbersFit(t: Tables, f: map<Id, Id>, numbers: map<Id, int>, count: int) {
    forall c :: c in t.newTable ==>
      var id := t.newTable[c];
      id in f && id in numbers && f[id] == numbers[id] && 0 <= numbers[id] < count
  }

  lemma {:induction false} RowPhase(h: Hashes, t: Tables, f: map<Id, Id>, numbers: map<Id, int>, b: nat, i: nat, p: Tables, count: int)
    requires Inv(h, t) && RowsDone(h, t, f, Upto(t.newTable, b, 0), p) && AllValid(h, t.infos)
    requires NumbersFit(t, f, numbers, count)
    ensures RowsDone(h, t, f, Upto(t.newTable, b, i), LoadRow(h, p, count, true, b, Row(t.newTable, numbers, b, i)))
  {
    hide Inv, RowsDone, AllValid, Upto, LoadEntry;
    if i > 0 {
      RowPhase(h, t, f, numbers, b, i - 1, p, count);
      UptoNext(t.newTable, b, i - 1);
      var c, row := Cell(b, i - 1), Row(t.newTable, numbers, b, i - 1);
      if c in t.newTable {
        var e := numbers[t.newTable[c]];
        LoadRowNext(h, p, count, true, b, row, e);
        RowsDoneStep(h, t, f, b, i - 1, LoadRow(h, p, count, true, b, row), count);
      } else {
        assert row + [] == row;
      }
    }
  }

  lemma LoadRowNext(h: Hashes, t: Tables, count: int, restore: bool, b: nat, row: seq<int>, e: int)
    ensures LoadRow(h, t, count, restore, b, row + [e]) ==
            LoadEntry(h, LoadRow(h, t, count, restore, b, row), count, restore, b, e)
  {
    assert (row + [e])[..|row|] == row;
  }

  lemma {:induction false} RowsPhase(h: Hashes, t: Tables, f: map<Id, Id>, numbers: map<Id, int>, n: nat, p: Tables, count: int)
    requires Inv(h, t) && RowsDone(h, t, f, Upto(t.newTable, 0, 0), p) && AllValid(h, t.infos)
    requires NumbersFit(t, f, numbers, count)
    ensures RowsDone(h, t, f, Upto(t.newTable, n, 0), LoadRows(h, p, count, true, Rows(t.newTable, numbers, n)))
    ensures |Rows(t.newTable, numbers, n)| == n
  {
    hide *;
    if n == 0 {
      NoRows(h, t.newTable, numbers, p, count);
    } else {
      RowsPhase(h, t, f, numbers, n - 1, p, count);
      InvPasses(h, t);
      NewWithin(t);
      UptoRow(t.newTable, NEW_BUCKET_COUNT, n - 1);
      var q := LoadRows(h, p, count, true, Rows(t.newTable, numbers, n - 1));
      RowPhase(h, t, f, numbers, n - 1, BUCKET_SIZE, q, count);
      LoadRowsNext(h, t.newTable, numbers, n, p, count);
    }
  }

  lemma NewWithin(t: Tables)
    requires Shaped(t)
    ensures Within(t.newTable, NEW_BUCKET_COUNT)
  {
  }

  lemma NoRows(h: Hashes, table: Table, numbers: map<Id, int>, p: Tables, count: int)
    ensures Rows(table, numbers, 0) == [] && LoadRows(h, p, count, true, []) == p
  {
  }

  lemma LoadRowsNext(h: Hashes, table: Table, numbers: map<Id, int>, n: nat, p: Tables, count: int)
    requires n > 0 && |Rows(table, numbers, n - 1)| == n - 1
    ensures |Rows(table, numbers, n)| == n
    ensures LoadRows(h, p, count, true, Rows(table, numbers, n)) ==
            LoadRow(h, LoadRows(h, p, count, true, Rows(table, numbers, n - 1)), count, true, n - 1,
                    Row(table, numbers, n - 1, BUCKET_SIZE))
  {
    hide LoadRow, Row;
    assert Rows(table, numbers, n)[..n - 1] == Rows(table, numbers, n - 1);
  }

  // ----- The round trip -----

  /** The id each entry is loaded under. */
  ghost function Names(m: Infos, order: seq<Id>): map<Id, Id>
    requires Members(m, order)
  {
    TriedNames(m, order, NewNames(m, order), |Records(m, order, false)|)
  }

  /**
   Nothing is lost: every entry has one copy with the same saved statistics, in the same
   table, with as many references, and each cell of both tables holds the copy of the entry
   it held.
   */
  ghost predicate Mirror(t: Tables, f: map<Id, Id>, p: Tables) {
    && Copies(t.infos, t.infos.Keys, f, p.infos)
    && (forall id :: id in t.infos ==> f[id] in p.infos && p.infos[f[id]].refCount == t.infos[id].refCount)
    && CellsCopied(t.newTable, f, p.newTable)
    && CellsCopied(t.tried, f, p.tried)
    && p.nNew == t.nNew && p.nTried == t.nTried
  }

  lemma PartsCover(m: Infos, order: seq<Id>)
    requires Enumerates(m, order)
    ensures Members(m, order) && Distinct(order)
    ensures Part(m, order, false) == NewIds(m) && Part(m, order, true) == TriedIds(m)
    ensures Part(m, order, false) + Part(m, order, true) == m.Keys && Part(m, order, false) !! Part(m, order, true)
  {
    forall k | 0 <= k < |order| ensures order[k] in m {
      assert order[k] in Elements(order);
    }
    forall id | id in m ensures id in Part(m, order, m[id].inTried) {
      assert id in Elements(order);
    }
  }

  lemma SecondPhase(h: Hashes, t: Tables, done: set<Id>, f: map<Id, Id>, count: int, p: Tables)
    requires NewDone(h, t, done, f, count, p)
    ensures TriedDone(h, t, done, f, p.infos.Keys, p.nIdCount - count, p)
  {
  }

  lemma ThirdPhase(h: Hashes, t: Tables, f: map<Id, Id>, limbo: set<Id>, p: Tables)
    requires TriedDone(h, t, t.infos.Keys, f, limbo, 0, p)
    ensures RowsDone(h, t, f, Upto(t.newTable, 0, 0), p)
  {
    forall id ensures id in limbo <==> id in Homeless(p.infos) {
      if id in p.infos {
        RecordOf(h, p, limbo, 0, id);
        assert CellsOf(p.newTable, id) == {};
      }
    }
    assert limbo == Homeless(p.infos);
    assert Upto(t.newTable, 0, 0) == map[];
  }

  lemma NumbersFitAll(h: Hashes, t: Tables, order: seq<Id>)
    requires Inv(h, t) && Enumerates(t.infos, order) && Members(t.infos, order)
    ensures NumbersFit(t, Names(t.infos, order), Numbers(t.infos, order), |Records(t.infos, order, false)|)
  {
    PartsCover(t.infos, order);
    forall c | c in t.newTable
      ensures var id, f, numbers := t.newTable[c], Names(t.infos, order), Numbers(t.infos, order);
              id in f && id in numbers && f[id] == numbers[id] && 0 <= numbers[id] < |Records(t.infos, order, false)|
    {
      OccupantOf(h, t, {}, 0, c);
      NamesAreNumbers(h, t, order, t.newTable[c]);
      TriedNamesKeep(t.infos, order, NewNames(t.infos, order), |Records(t.infos, order, false)|, t.newTable[c]);
    }
  }

  lemma LoadedIs(h: Hashes, t: Tables, order: seq<Id>)
    requires Inv(h, t) && Enumerates(t.infos, order) && Members(t.infos, order) && AllValid(h, t.infos)
    ensures RowsDone(h, t, Names(t.infos, order), t.newTable, Loaded(h, Saved(t, order), true))
  {
    hide *;
    var m := t.infos;
    PartsCover(m, order);
    var count := |Records(m, order, false)|;
    NewPhase(h, t, order, count);
    var p1 := LoadNew(Empty(count), Records(m, order, false));
    SecondPhase(h, t, Part(m, order, false), NewNames(m, order), count, p1);
    TriedPhase(h, t, order, Part(m, order, false), NewNames(m, order), p1.infos.Keys, 0, p1);
    var p2 := LoadTried(h, p1, Records(m, order, true));
    NamesIs(m, order);
    ThirdPhase(h, t, Names(m, order), p1.infos.Keys, p2);
    NumbersFitAll(h, t, order);
    RowsPhase(h, t, Names(m, order), Numbers(m, order), NEW_BUCKET_COUNT, p2, count);
    InvPasses(h, t);
    NewWithin(t);
    UptoAll(t.newTable, NEW_BUCKET_COUNT);
    LoadedSteps(h, t, order);
  }

  lemma NamesIs(m: Infos, order: seq<Id>)
    requires Members(m, order)
    ensures Names(m, order) == TriedNames(m, order, NewNames(m, order), |Records(m, order, false)|)
  {
  }

  lemma LoadedSteps(h: Hashes, t: Tables, order: seq<Id>)
    requires Members(t.infos, order)
    ensures var count := |Records(t.infos, order, false)|;
            Loaded(h, Saved(t, order), true) ==
            LoadRows(h, LoadTried(h, LoadNew(Empty(count), Records(t.infos, order, false)), Records(t.infos, order, true)),
                     count, true, Rows(t.newTable, Numbers(t.infos, order), NEW_BUCKET_COUNT))
  {
    hide LoadRows, LoadTried, LoadNew, Records, Rows, Numbers;
  }

  /** Loading what was saved under the same bucketing gives a consistent mirror image. */
  lemma RoundTrip(h: Hashes, t: Tables, order: seq<Id>)
    requires Inv(h, t) && Enumerates(t.infos, order) && AllValid(h, t.infos)
    ensures Members(t.infos, order)
    ensures var p := Loaded(h, Saved(t, order), true);
            Inv(h, p) && Homeless(p.infos) == {} && Mirror(t, Names(t.infos, order), p)
  {
    hide *;
    PartsCover(t.infos, order);
    LoadedIs(h, t, order);
    MirrorDone(h, t, Names(t.infos, order), Loaded(h, Saved(t, order), true));
  }

  lemma MirrorDone(h: Hashes, t: Tables, f: map<Id, Id>, p: Tables)
    requires Inv(h, t) && RowsDone(h, t, f, t.newTable, p)
    ensures Inv(h, p) && Homeless(p.infos) == {} && Mirror(t, f, p)
  {
    forall id | id in t.infos
      ensures f[id] in p.infos && p.infos[f[id]].refCount == t.infos[id].refCount
    {
      RefsMirror(h, t, f, p, id);
    }
    NoneHomeless(h, t, f, p);
    TriedMirror(h, t, f, p);
    CountsMirror(h, t, f, p);
    hide Agree, Copies, CellsCopied;
  }

  lemma RefsMirror(h: Hashes, t: Tables, f: map<Id, Id>, p: Tables, id: Id)
    requires Inv(h, t) && RowsDone(h, t, f, t.newTable, p) && id in t.infos
    ensures id in f && f[id] in p.infos && p.infos[f[id]].refCount == t.infos[id].refCount
    ensures SameEntry(t.infos[id], p.infos[f[id]])
  {
    hide Agree, Copies, CellsCopied, Homeless, CollisionsOk;
    CopyOf(t.infos, f, p.infos, id);
    RecordOf(h, t, {}, 0, id);
    RecordOf(h, p, Homeless(p.infos), 0, f[id]);
    forall c | c in t.newTable ensures t.newTable[c] in t.infos {
      OccupantOf(h, t, {}, 0, c);
    }
    SameCells(h, t, f, t.newTable, p.infos, p.newTable, id);
  }

  lemma NoneHomeless(h: Hashes, t: Tables, f: map<Id, Id>, p: Tables)
    requires Inv(h, t) && RowsDone(h, t, f, t.newTable, p)
    ensures Homeless(p.infos) == {}
  {
    hide Agree, Copies, CellsCopied, CollisionsOk;
    forall j | j in p.infos ensures j !in Homeless(p.infos) {
      var x := LoadedFrom(t.infos, t.infos.Keys, f, p.infos, j);
      RefsMirror(h, t, f, p, x);
      RecordOf(h, t, {}, 0, x);
    }
  }

  lemma TriedMirror(h: Hashes, t: Tables, f: map<Id, Id>, p: Tables)
    requires Inv(h, t) && RowsDone(h, t, f, t.newTable, p)
    ensures CellsCopied(t.tried, f, p.tried)
  {
    hide Agree, Copies, CollisionsOk;
    forall c | c in t.tried ensures c in p.tried && t.tried[c] in f && p.tried[c] == f[t.tried[c]] {
      TriedOccupant(h, t, {}, 0, c);
      CopyOf(t.infos, f, p.infos, t.tried[c]);
      TriedPlace(h, p, Homeless(p.infos), 0, f[t.tried[c]]);
    }
    forall c | c in p.tried ensures c in t.tried {
      TriedOccupant(h, p, Homeless(p.infos), 0, c);
      var x := LoadedFrom(t.infos, t.infos.Keys, f, p.infos, p.tried[c]);
      TriedPlace(h, t, {}, 0, x);
    }
  }

  /** An injective image has the same size. */
  lemma {:induction false} ImageSize(s: set<Id>, f: map<Id, Id>, image: set<Id>)
    requires s <= f.Keys && image == (set x | x in s :: f[x])
    requires forall x, y :: x in s && y in s && f[x] == f[y] ==> x == y
    ensures |image| == |s|
  {
    if s != {} {
      var x: Id := AnyOf(s);
      var rest := set y | y in s - {x} :: f[y];
      assert image == rest + {f[x]};
      ImageSize(s - {x}, f, rest);
    }
  }

  lemma CountsMirror(h: Hashes, t: Tables, f: map<Id, Id>, p: Tables)
    requires Inv(h, t) && RowsDone(h, t, f, t.newTable, p)
    ensures |NewIds(p.infos)| == |NewIds(t.infos)| && |TriedIds(p.infos)| == |TriedIds(t.infos)|
  {
    hide Agree, CollisionsOk;
    forall x, y | x in t.infos && y in t.infos && f[x] == f[y] ensures x == y {
      CopiesInjective(h, t, f, p.infos, x, y);
    }
    forall j ensures j in NewIds(p.infos) <==> j in (set x | x in NewIds(t.infos) :: f[x]) {
      if j in p.infos {
        var x := LoadedFrom(t.infos, t.infos.Keys, f, p.infos, j);
      }
    }
    forall j ensures j in TriedIds(p.infos) <==> j in (set x | x in TriedIds(t.infos) :: f[x]) {
      if j in p.infos {
        var x := LoadedFrom(t.infos, t.infos.Keys, f, p.infos, j);
      }
    }
    ImageSize(NewIds(t.infos), f, NewIds(p.infos));
    ImageSize(TriedIds(t.infos), f, TriedIds(p.infos));
  }

  // ----- The loops -----

  lemma {:induction false} RecordsCount(h: Hashes, t: Tables, order: seq<Id>, tried: bool)
    requires Inv(h, t) && Members(t.infos, order) && Distinct(order)
    ensures |Records(t.infos, order, tried)| == |Part(t.infos, order, tried)|
  {
    if order == [] {
      assert Part(t.infos, order, tried) == {};
    } else {
      PartNext(t.infos, order, tried);
      ListNext(h, t, order);
      hide Inv, Part, Distinct, Records;
      RecordsCount(h, t, order[..|order| - 1], tried);
    }
  }

  lemma PrefixFacts(m: Infos, order: seq<Id>, k: nat, tried: bool)
    requires Members(m, order) && Distinct(order) && k <= |order|
    ensures Members(m, order[..k]) && Distinct(order[..k])
    ensures Part(m, order[..k], tried) <= Part(m, order, tried)
  {
    forall x | x in Part(m, order[..k], tried) ensures x in Part(m, order, tried) {
      var i :| 0 <= i < k && m[order[..k][i]].inTried == tried && order[..k][i] == x;
      assert order[i] == x;
    }
  }

  ghost function Counter(t: Tables, tried: bool): int {
    if tried then t.nTried else t.nNew
  }

  lemma CounterIs(h: Hashes, t: Tables, order: seq<Id>, tried: bool)
    requires Inv(h, t) && Enumerates(t.infos, order)
    ensures Members(t.infos, order) && Distinct(order) && Counter(t, tried) == |Part(t.infos, order, tried)|
  {
    PartsCover(t.infos, order);
    hide Part, Enumerates, Members, Distinct;
  }

  /** The counter cannot be reached before the last record: the assertions of the source hold. */
  lemma CounterAhead(h: Hashes, t: Tables, order: seq<Id>, k: nat)
    requires Inv(h, t) && Enumerates(t.infos, order) && Members(t.infos, order) && k < |order|
    ensures order[..k + 1] == order[..k] + [order[k]] && order[k] in t.infos
    ensures Members(t.infos, order[..k]) && Members(t.infos, order[..k + 1])
    ensures var m, i := t.infos, t.infos[order[k]];
            && Records(m, order[..k + 1], i.inTried) == Records(m, order[..k], i.inTried) + [Persist(i)]
            && Records(m, order[..k + 1], !i.inTried) == Records(m, order[..k], !i.inTried)
            && Numbers(m, order[..k + 1]) == Numbers(m, order[..k])[order[k] := |Records(m, order[..k], false)|]
            && |Records(m, order[..k], i.inTried)| < Counter(t, i.inTried)
            && (i.inTried <==> i.refCount == 0)
  {
    hide *;
    var next, prev := order[..k + 1], order[..k];
    assert next == prev + [order[k]] && next[..|next| - 1] == prev && next[|next| - 1] == order[k];
    ItemKnown(h, t, order, k);
    var tried := t.infos[order[k]].inTried;
    CounterIs(h, t, order, tried);
    PrefixFacts(t.infos, order, k + 1, tried);
    ListNext(h, t, next);
    RecordsCount(h, t, next, tried);
    SubsetSize(Part(t.infos, next, tried), Part(t.infos, order, tried));
  }

  lemma ItemKnown(h: Hashes, t: Tables, order: seq<Id>, k: nat)
    requires Inv(h, t) && Members(t.infos, order) && k < |order|
    ensures order[k] in t.infos && (t.infos[order[k]].inTried <==> t.infos[order[k]].refCount == 0)
  {
    RecordOf(h, t, {}, 0, order[k]);
  }

  lemma NothingYet(m: Infos)
    ensures Members(m, []) && Numbers(m, []) == map[] && Records(m, [], false) == [] && Records(m, [], true) == []
  {
  }

  method WriteNew(ghost h: Hashes, t: Tables, order: seq<Id>) returns (recs: seq<Rec>, numbers: map<Id, int>)
    requires Inv(h, t) && Enumerates(t.infos, order) && Members(t.infos, order)
    ensures recs == Records(t.infos, order, false) && numbers == Numbers(t.infos, order)
  {
    hide *;
    recs, numbers := [], map[];
    NothingYet(t.infos);
    for k := 0 to |order|
      invariant Members(t.infos, order[..k])
      invariant recs == Records(t.infos, order[..k], false) && numbers == Numbers(t.infos, order[..k])
    {
      CounterAhead(h, t, order, k);
      var i := t.infos[order[k]];
      numbers := numbers[order[k] := |recs|];
      if i.refCount != 0 {
        assert |recs| < Counter(t, false);
        recs := recs + [Persist(i)];
      }
    }
    assert order[..|order|] == order;
  }

  method WriteTried(ghost h: Hashes, t: Tables, order: seq<Id>) returns (recs: seq<Rec>)
    requires Inv(h, t) && Enumerates(t.infos, order) && Members(t.infos, order)
    ensures recs == Records(t.infos, order, true)
  {
    hide *;
    recs := [];
    NothingYet(t.infos);
    for k := 0 to |order|
      invariant Members(t.infos, order[..k]) && recs == Records(t.infos, order[..k], true)
    {
      CounterAhead(h, t, order, k);
      var i := t.infos[order[k]];
      if i.inTried {
        assert |recs| < Counter(t, true);
        recs := recs + [Persist(i)];
      }
    }
    assert order[..|order|] == order;
  }

  method WriteBuckets(table: Table, numbers: map<Id, int>) returns (rows: seq<seq<int>>)
    ensures rows == Rows(table, numbers, NEW_BUCKET_COUNT) && |rows| == NEW_BUCKET_COUNT
  {
    rows := [];
    for bucket := 0 to NEW_BUCKET_COUNT
      invariant rows == Rows(table, numbers, bucket) && |rows| == bucket
    {
      var row := [];
      for i := 0 to BUCKET_SIZE
        invariant row == Row(table, numbers, bucket, i)
      {
        var c := Cell(bucket, i);
        if c in table && table[c] in numbers {
          row := row + [numbers[table[c]]];
        } else {
          assert row + [] == row;
        }
      }
      rows := rows + [row];
    }
  }

  method Serialize(ghost h: Hashes, t: Tables, order: seq<Id>) returns (file: File)
    requires Inv(h, t) && Enumerates(t.infos, order) && Members(t.infos, order)
    ensures file == Saved(t, order)
    ensures |file.newRecs| == t.nNew && |file.triedRecs| == t.nTried && |file.buckets| == NEW_BUCKET_COUNT
  {
    hide Inv, Enumerates, Members, Distinct, Part, Records, Numbers, Rows;
    var newRecs, numbers := WriteNew(h, t, order);
    var triedRecs := WriteTried(h, t, order);
    var rows := WriteBuckets(t.newTable, numbers);
    file := File(newRecs, triedRecs, rows);
    CounterIs(h, t, order, false);
    CounterIs(h, t, order, true);
    RecordsCount(h, t, order, false);
    RecordsCount(h, t, order, true);
  }

  /** What holds of the tables while any file is loaded, right or corrupt. */
  ghost predicate Loadable(t: Tables) {
    && RandomOk(t.infos, t.random) && Shaped(t) && t.waiting == {}
    && t.nIdCount >= 0 && (forall id :: id in t.infos ==> 0 <= id < t.nIdCount)
    && (forall a :: a in t.byAddr ==> t.byAddr[a] in t.infos && t.infos[t.byAddr[a]].addr == a)
  }

  lemma LoadableCreate(t: Tables, i: AddrInfo)
    requires Loadable(t)
    ensures Loadable(Create(t, i))
  {
  }

  lemma LoadableTried(h: Hashes, t: Tables, r: Rec)
    requires Loadable(t)
    ensures Loadable(LoadOneTried(h, t, r))
  {
    LoadableCreate(t, Fresh(r));
  }

  lemma LoadableEntry(h: Hashes, t: Tables, count: int, restore: bool, bucket: nat, e: int)
    requires Loadable(t) && (restore ==> bucket < NEW_BUCKET_COUNT)
    ensures Loadable(LoadEntry(h, t, count, restore, bucket, e))
  {
  }

  method ReadNew(recs: seq<Rec>) returns (t: Tables)
    ensures t == LoadNew(Empty(|recs|), recs) && Loadable(t)
  {
    hide LoadNew, Loadable, Create;
    t := Empty(|recs|);
    EmptyLoadable(|recs|);
    for n := 0 to |recs|
      invariant t == LoadNew(Empty(|recs|), recs[..n]) && Loadable(t)
    {
      LoadNewNext(Empty(|recs|), recs[..n], recs[n]);
      assert recs[..n + 1] == recs[..n] + [recs[n]];
      LoadableCreate(t, Fresh(recs[n]));
      t := Create(t, Fresh(recs[n]));
    }
    assert recs[..|recs|] == recs;
  }

  lemma EmptyLoadable(count: nat)
    ensures Loadable(Empty(count)) && LoadNew(Empty(count), []) == Empty(count)
  {
  }

  method ReadTried(h: Hashes, p: Tables, recs: seq<Rec>) returns (t: Tables)
    requires Loadable(p)
    ensures t == LoadTried(h, p, recs) && Loadable(t)
  {
    NothingListed(h, p, p.infos, map[], 0);
    hide LoadTried, Loadable, Create;
    t := p;
    for n := 0 to |recs|
      invariant t == LoadTried(h, p, recs[..n]) && Loadable(t)
    {
      LoadTriedNext(h, p, recs[..n], recs[n]);
      assert recs[..n + 1] == recs[..n] + [recs[n]];
      LoadableTried(h, t, recs[n]);
      var r := recs[n];
      if h.valid(r.addr) && TriedCell(h, r.addr) !in t.tried {
        var id := t.nIdCount;
        FreshKnown(t, r);
        t := Create(t, Fresh(r));
        t := EnterTried(h, t, id);
      }
    }
    assert recs[..|recs|] == recs;
  }

  lemma FreshKnown(t: Tables, r: Rec)
    ensures t.nIdCount in Create(t, Fresh(r)).infos
  {
  }

  method ReadBuckets(h: Hashes, p: Tables, count: int, restore: bool, rows: seq<seq<int>>) returns (t: Tables)
    requires Loadable(p) && (restore ==> |rows| <= NEW_BUCKET_COUNT)
    ensures t == LoadRows(h, p, count, restore, rows) && Loadable(t)
  {
    NoEntries(h, p, count, restore);
    hide LoadRows, LoadRow, Loadable, LoadEntry;
    t := p;
    for b := 0 to |rows|
      invariant t == LoadRows(h, p, count, restore, rows[..b]) && Loadable(t)
    {
      var row := rows[b];
      ghost var q := t;
      NoEntriesInRow(h, q, count, restore, b);
      for n := 0 to |row|
        invariant t == LoadRow(h, q, count, restore, b, row[..n]) && Loadable(t)
      {
        LoadRowNext(h, q, count, restore, b, row[..n], row[n]);
        assert row[..n + 1] == row[..n] + [row[n]];
        LoadableEntry(h, t, count, restore, b, row[n]);
        t := LoadEntry(h, t, count, restore, b, row[n]);
      }
      assert row[..|row|] == row;
      assert rows[..b + 1] == rows[..b] + [rows[b]] && rows[..b + 1][..b] == rows[..b];
      RowsUnfold(h, p, count, restore, rows[..b + 1]);
    }
    assert rows[..|rows|] == rows;
  }

  lemma NoEntries(h: Hashes, p: Tables, count: int, restore: bool)
    ensures LoadRows(h, p, count, restore, []) == p
  {
  }

  lemma NoEntriesInRow(h: Hashes, p: Tables, count: int, restore: bool, b: nat)
    ensures LoadRow(h, p, count, restore, b, []) == p
  {
  }

  lemma RowsUnfold(h: Hashes, p: Tables, count: int, restore: bool, rows: seq<seq<int>>)
    requires rows != []
    ensures LoadRows(h, p, count, restore, rows) ==
            LoadRow(h, LoadRows(h, p, count, restore, rows[..|rows| - 1]), count, restore, |rows| - 1, rows[|rows| - 1])
  {
  }

  /** What pruning leaves of the loaded tables. */
  ghost predicate Pruned(p: Tables, gone: set<Id>, t: Tables) {
    && t.infos.Keys == p.infos.Keys - gone && Untouched(p.infos, t.infos, {})
    && t.tried == p.tried && t.newTable == p.newTable && t.waiting == p.waiting
    && t.nTried == p.nTried && t.nNew == p.nNew - |gone| && t.nIdCount == p.nIdCount
    && t.byAddr == p.byAddr - AddrsOf(p.infos, gone)
    && (gone == {} ==> t == p)
  }

  lemma PruneStep(p: Tables, gone: set<Id>, t: Tables, id: Id)
    requires RandomOk(t.infos, t.random) && Pruned(p, gone, t) && id in t.infos
    ensures 0 <= t.infos[id].randomPos < |t.random|
    ensures t.random[t.infos[id].randomPos] in t.infos && t.random[|t.random| - 1] in t.infos
    ensures RandomOk(Delete(t, id).infos, Delete(t, id).random) && Pruned(p, gone + {id}, Delete(t, id))
  {
    RandomAt(t, id);
    PruneRandom(t, id);
    PruneRest(p, gone, t, id);
  }

  /** What deleting a record leaves, but for the shuffled vector and the positions in it. */
  ghost predicate Without(t: Tables, id: Id, t': Tables)
    requires id in t.infos
  {
    && t'.infos.Keys == t.infos.Keys - {id} && Untouched(t.infos, t'.infos, {})
    && t'.byAddr == t.byAddr - {t.infos[id].addr} && t'.nNew == t.nNew - 1
    && t'.tried == t.tried && t'.newTable == t.newTable && t'.waiting == t.waiting
    && t'.nTried == t.nTried && t'.nIdCount == t.nIdCount
  }

  lemma PruneRandom(t: Tables, id: Id)
    requires RandomOk(t.infos, t.random) && id in t.infos
    ensures 0 <= t.infos[id].randomPos < |t.random|
    ensures t.random[t.infos[id].randomPos] in t.infos && t.random[|t.random| - 1] in t.infos
    ensures RandomOk(Delete(t, id).infos, Delete(t, id).random) && Without(t, id, Delete(t, id))
  {
    hide *;
    RandomAt(t, id);
    LastAfterSwap(t, id);
    var s := SwapRandom(t, t.infos[id].randomPos, |t.random| - 1);
    DeleteIs(t, id, s);
    SwapUntouched(t, t.infos[id].randomPos, |t.random| - 1);
    RandomWithoutLast(s.infos, s.random);
    UntouchedMinus(t.infos, s.infos, id);
    WithoutIs(t, id, Delete(t, id));
  }

  lemma DeleteIs(t: Tables, id: Id, s: Tables)
    requires id in t.infos && 0 <= t.infos[id].randomPos < |t.random|
    requires t.random[t.infos[id].randomPos] in t.infos && t.random[|t.random| - 1] in t.infos
    requires s == SwapRandom(t, t.infos[id].randomPos, |t.random| - 1) && |s.random| == |t.random|
    ensures Delete(t, id) == s.(random := s.random[..|s.random| - 1], byAddr := s.byAddr - {t.infos[id].addr},
                                infos := s.infos - {id}, nNew := s.nNew - 1)
  {
    hide SwapRandom;
  }

  lemma WithoutIs(t: Tables, id: Id, t': Tables)
    requires id in t.infos && t'.infos.Keys == t.infos.Keys - {id} && Untouched(t.infos, t'.infos, {})
    requires t'.byAddr == t.byAddr - {t.infos[id].addr} && t'.nNew == t.nNew - 1
    requires t'.tried == t.tried && t'.newTable == t.newTable && t'.waiting == t.waiting
    requires t'.nTried == t.nTried && t'.nIdCount == t.nIdCount
    ensures Without(t, id, t')
  {
  }

  lemma PruneRest(p: Tables, gone: set<Id>, t: Tables, id: Id)
    requires Pruned(p, gone, t) && id in t.infos && 0 <= t.infos[id].randomPos < |t.random|
    requires t.random[t.infos[id].randomPos] in t.infos && t.random[|t.random| - 1] in t.infos
    requires Without(t, id, Delete(t, id))
    ensures Pruned(p, gone + {id}, Delete(t, id))
  {
    AddrOf(p, gone, t, id);
    hide Delete, Untouched, AddrsOf;
    UntouchedTrans(p.infos, t.infos, Delete(t, id).infos);
    GoneMore(p.infos, p.byAddr, gone, id);
  }

  lemma RandomAt(t: Tables, id: Id)
    requires RandomOk(t.infos, t.random) && id in t.infos
    ensures 0 <= t.infos[id].randomPos < |t.random| && t.random[t.infos[id].randomPos] == id
    ensures t.random[|t.random| - 1] in t.infos
  {
  }

  lemma LastAfterSwap(t: Tables, id: Id)
    requires RandomOk(t.infos, t.random) && id in t.infos
    ensures 0 <= t.infos[id].randomPos < |t.random| && t.random[|t.random| - 1] in t.infos
    ensures var s := SwapRandom(t, t.infos[id].randomPos, |t.random| - 1);
            && RandomOk(s.infos, s.random) && |s.random| == |t.random| && s.random[|s.random| - 1] == id
            && s.byAddr == t.byAddr && s.tried == t.tried && s.newTable == t.newTable && s.waiting == t.waiting
            && s.nTried == t.nTried && s.nNew == t.nNew && s.nIdCount == t.nIdCount
  {
    var pos, last := t.infos[id].randomPos, |t.random| - 1;
    if pos != last {
      RandomSwapped(t.infos, t.random, pos, last);
    }
  }

  /** The addresses of records. */
  ghost function AddrsOf(m: Infos, ids: set<Id>): set<Service> {
    set id | id in ids && id in m :: m[id].addr
  }

  lemma AddrOf(p: Tables, gone: set<Id>, t: Tables, id: Id)
    requires Pruned(p, gone, t) && id in t.infos
    ensures id in p.infos && id !in gone && t.infos[id].addr == p.infos[id].addr
  {
  }

  lemma GoneMore(m: Infos, byAddr: map<Service, Id>, gone: set<Id>, id: Id)
    requires id in m && id !in gone
    ensures byAddr - AddrsOf(m, gone) - {m[id].addr} == byAddr - AddrsOf(m, gone + {id})
    ensures |gone + {id}| == |gone| + 1
  {
    assert AddrsOf(m, gone + {id}) == AddrsOf(m, gone) + {m[id].addr};
  }

  lemma SwapUntouched(t: Tables, i: nat, j: nat)
    requires i < |t.random| && j < |t.random| && t.random[i] in t.infos && t.random[j] in t.infos
    ensures var s := SwapRandom(t, i, j); s.infos.Keys == t.infos.Keys && Untouched(t.infos, s.infos, {})
  {
  }

  lemma UntouchedMinus(m: Infos, m': Infos, id: Id)
    requires Untouched(m, m', {})
    ensures Untouched(m, m' - {id}, {})
  {
  }

  lemma NothingPruned(p: Tables)
    requires Loadable(p)
    ensures RandomOk(p.infos, p.random) && Pruned(p, Homeless(p.infos) - p.infos.Keys, p)
  {
    hide RandomOk;
    assert Homeless(p.infos) - p.infos.Keys == {};
    assert p.byAddr - AddrsOf(p.infos, {}) == p.byAddr;
  }

  lemma StillThere(p: Tables, gone: set<Id>, t: Tables, id: Id)
    requires Pruned(p, gone, t) && id in p.infos && id !in gone
    ensures id in t.infos && t.infos[id].inTried == p.infos[id].inTried && t.infos[id].refCount == p.infos[id].refCount
  {
  }

  lemma NextHomeless(m: Infos, rest: set<Id>, id: Id)
    requires id in m && id in rest
    ensures var gone := Homeless(m) - rest;
            Homeless(m) - (rest - {id}) == if !m[id].inTried && m[id].refCount == 0 then gone + {id} else gone
  {
  }

  method Prune(p: Tables) returns (t: Tables)
    requires Loadable(p)
    ensures RandomOk(t.infos, t.random) && Pruned(p, Homeless(p.infos), t)
  {
    hide *;
    t := p;
    var rest := p.infos.Keys;
    NothingPruned(p);
    while rest != {}
      invariant rest <= p.infos.Keys && RandomOk(t.infos, t.random) && Pruned(p, Homeless(p.infos) - rest, t)
      decreases rest
    {
      ghost var w: Id := AnyOf(rest);
      assert w in rest;
      var id: Id :| id in rest;
      ghost var gone := Homeless(p.infos) - rest;
      StillThere(p, gone, t, id);
      if !t.infos[id].inTried && t.infos[id].refCount == 0 {
        PruneStep(p, gone, t, id);
        t := Delete(t, id);
      }
      NextHomeless(p.infos, rest, id);
      rest := rest - {id};
    }
    assert Homeless(p.infos) - {} == Homeless(p.infos);
  }

  datatype Loading = Ok(tables: Tables) | TooMany | Corrupt(code: int)

  /** Load a file; `sameAsmap` compares the checksum in it with that of the asmap in use. */
  method Unserialize(h: Hashes, file: File, sameAsmap: bool, keyIsNull: bool) returns (r: Loading)
    ensures r.TooMany? <==> |file.newRecs| > NEW_BUCKET_COUNT * BUCKET_SIZE || |file.triedRecs| > TRIED_BUCKET_COUNT * BUCKET_SIZE
    ensures r.Ok? <==> !r.TooMany? && !keyIsNull && Fits(h, Survivors(Loaded(h, file, sameAsmap && |file.buckets| == NEW_BUCKET_COUNT)))
    ensures r.Ok? ==>
      var p := Loaded(h, file, sameAsmap && |file.buckets| == NEW_BUCKET_COUNT);
      Inv(h, r.tables) && Pruned(p, Homeless(p.infos), r.tables)
    ensures !r.TooMany? ==>
      var p := Loaded(h, file, sameAsmap && |file.buckets| == NEW_BUCKET_COUNT);
      Homeless(p.infos) == {} && Sound(h, p) && !keyIsNull ==> r == Ok(p)
  {
    hide LoadNew, LoadTried, LoadRows, Loadable, RandomOk, Sound, Fits, Pruned, Inv, Shaped, Survivors;
    if |file.newRecs| > NEW_BUCKET_COUNT * BUCKET_SIZE {
      return TooMany;
    }
    if |file.triedRecs| > TRIED_BUCKET_COUNT * BUCKET_SIZE {
      return TooMany;
    }
    var t := ReadNew(file.newRecs);
    t := ReadTried(h, t, file.triedRecs);
    t := ReadBuckets(h, t, |file.newRecs|, sameAsmap && |file.buckets| == NEW_BUCKET_COUNT, file.buckets);
    ghost var p := t;
    t := Prune(t);
    PrunedShape(p, t);
    PrunedFits(h, p, t);
    if Homeless(p.infos) == {} {
      AllSurvive(h, p);
      PrunedNothing(p, t);
    }
    var code := CheckAddrman(h, t, keyIsNull);
    if code != 0 {
      return Corrupt(code);
    }
    AcceptedInv(h, p, t);
    return Ok(t);
  }

  /** The tables without the records that have no cell. */
  ghost function Survivors(p: Tables): Tables {
    var gone := Homeless(p.infos);
    p.(infos := p.infos - gone, byAddr := p.byAddr - AddrsOf(p.infos, gone), nNew := p.nNew - |gone|)
  }

  lemma AllSurvive(h: Hashes, p: Tables)
    requires Homeless(p.infos) == {}
    ensures Survivors(p) == p && (Sound(h, p) ==> Fits(h, p))
  {
    assert p.infos - {} == p.infos && p.byAddr - AddrsOf(p.infos, {}) == p.byAddr;
  }

  lemma PrunedNothing(p: Tables, t: Tables)
    requires Homeless(p.infos) == {} && Pruned(p, Homeless(p.infos), t)
    ensures t == p
  {
  }

  /** Positions in the shuffled vector do not matter to the other structures. */
  lemma FitsFrame(h: Hashes, q: Tables, t: Tables)
    requires t.infos.Keys == q.infos.Keys && Untouched(q.infos, t.infos, {})
    requires t.byAddr == q.byAddr && t.tried == q.tried && t.newTable == q.newTable && t.nTried == q.nTried && t.nNew == q.nNew
    ensures Fits(h, q) <==> Fits(h, t)
  {
    forall id | id in q.infos ensures id in t.infos && t.infos[id] == q.infos[id].(randomPos := t.infos[id].randomPos) {
      assert id in t.infos.Keys;
    }
    forall id | id in t.infos ensures id in q.infos {
      assert id in q.infos.Keys;
    }
    assert TriedIds(t.infos) == TriedIds(q.infos) && NewIds(t.infos) == NewIds(q.infos);
    hide TriedIds, NewIds, CellsOf, TriedCell, NewCell;
  }

  lemma PrunedFits(h: Hashes, p: Tables, t: Tables)
    requires Pruned(p, Homeless(p.infos), t) && RandomOk(t.infos, t.random)
    ensures Sound(h, t) <==> Fits(h, Survivors(p))
  {
    var q := Survivors(p);
    assert forall id :: id in q.infos ==> id in p.infos && q.infos[id] == p.infos[id];
    FitsFrame(h, q, t);
  }

  lemma AddrKept(m: Infos, gone: set<Id>, id: Id)
    requires id in m && m[id].addr !in AddrsOf(m, gone)
    ensures id !in gone
  {
    var addr := m[id].addr;
    assert id in gone ==> addr in AddrsOf(m, gone);
  }

  /** What passes the consistency check after loading is consistent. */
  lemma AcceptedInv(h: Hashes, p: Tables, t: Tables)
    requires Loadable(p) && Pruned(p, Homeless(p.infos), t) && Sound(h, t)
    ensures Inv(h, t)
  {
    SoundIsAgreement(h, t);
    hide Sound, RandomOk;
    forall a | a in t.byAddr ensures t.byAddr[a] in t.infos && t.infos[t.byAddr[a]].addr == a {
      var id, gone := p.byAddr[a], Homeless(p.infos);
      assert a !in AddrsOf(p.infos, gone);
      AddrKept(p.infos, gone, id);
      assert id in t.infos.Keys;
    }
  }

  lemma PrunedShape(p: Tables, t: Tables)
    requires Loadable(p) && Pruned(p, Homeless(p.infos), t)
    ensures Shaped(t)
  {
  }

  // ----- The counts fit the tables -----

  lemma {:induction false} RowSize(cells: set<Cell>, n: nat, size: nat)
    requires forall c :: c in cells ==> c.bucket == n && c.pos < size
    ensures |cells| <= size
  {
    if size == 0 {
      assert cells == {};
    } else {
      var c := Cell(n, size - 1);
      RowSize(cells - {c}, n, size - 1);
      assert |cells - {c}| >= |cells| - 1;
    }
  }

  lemma {:induction false} GridSize(cells: set<Cell>, n: nat)
    requires forall c :: c in cells ==> c.bucket < n && c.pos < BUCKET_SIZE
    ensures |cells| <= n * BUCKET_SIZE
  {
    if n == 0 {
      assert cells == {};
    } else {
      var row := set c | c in cells && c.bucket == n - 1;
      RowSize(row, n - 1, BUCKET_SIZE);
      GridSize(cells - row, n - 1);
      assert cells == row + (cells - row);
    }
  }

  lemma {:induction false} ValuesSize(table: Table, ids: set<Id>)
    requires forall id :: id in ids ==> CellsOf(table, id) != {}
    ensures |ids| <= |table.Keys|
  {
    if ids != {} {
      var id: Id := AnyOf(ids);
      var cells := CellsOf(table, id);
      var rest := table - cells;
      forall x | x in ids - {id} ensures CellsOf(rest, x) != {} {
        assert CellsOf(rest, x) == CellsOf(table, x);
      }
      ValuesSize(rest, ids - {id});
      assert table.Keys == rest.Keys + cells;
    }
  }

  lemma CountsFit(h: Hashes, t: Tables)
    requires Inv(h, t)
    ensures t.nNew <= NEW_BUCKET_COUNT * BUCKET_SIZE && t.nTried <= TRIED_BUCKET_COUNT * BUCKET_SIZE
  {
    InvPasses(h, t);
    GridSize(t.newTable.Keys, NEW_BUCKET_COUNT);
    GridSize(t.tried.Keys, TRIED_BUCKET_COUNT);
    forall id | id in NewIds(t.infos) ensures CellsOf(t.newTable, id) != {} {
      RecordOf(h, t, {}, 0, id);
    }
    ValuesSize(t.newTable, NewIds(t.infos));
    forall id | id in TriedIds(t.infos) ensures CellsOf(t.tried, id) != {} {
      TriedPlace(h, t, {}, 0, id);
      assert TriedCell(h, t.infos[id].addr) in CellsOf(t.tried, id);
    }
    ValuesSize(t.tried, TriedIds(t.infos));
  }

  /** Saving a consistent address manager and loading the file again loses nothing. */
  method SaveAndLoad(h: Hashes, t: Tables, order: seq<Id>) returns (r: Loading)
    requires Inv(h, t) && Enumerates(t.infos, order) && Members(t.infos, order) && AllValid(h, t.infos)
    ensures r.Ok? && Inv(h, r.tables) && Mirror(t, Names(t.infos, order), r.tables)
  {
    hide *;
    RoundTrip(h, t, order);
    CountsFit(h, t);
    InvPasses(h, Loaded(h, Saved(t, order), true));
    var file := Serialize(h, t, order);
    r := Unserialize(h, file, true, false);
  }

  /** Whatever file is loaded, and whatever is done then, the consistency check passes from there on. */
  method LoadAndRun(h: Hashes, file: File, sameAsmap: bool, keyIsNull: bool, ops: seq<Op>) returns (r: Loading, code: int)
    requires forall op :: op in ops ==> Clocked(op)
    ensures r.Ok? ==> code == 0
  {
    hide *;
    code := 0;
    r := Unserialize(h, file, sameAsmap, keyIsNull);
    if r.Ok? {
      var am := new AddrManImpl.Loaded(h, r.tables);
      code := StaysSound(am, ops);
    }
  }
}
