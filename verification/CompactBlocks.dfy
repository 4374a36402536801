/**
 Compact blocks (src/blockencodings.cpp, section "HeaderAndShortIDs" of BIP 152): a block as
 some transactions in full and short ids for the rest, and its reconstruction from the
 transactions a node already has.

 A transaction stands for its witness hash; `sid` is the keyed short id.
 */
module CompactBlocks {

  type Tx = nat

  datatype Option<T> = None | Some(value: T)

  /** A transaction sent in full, at `index` places after the one before it. */
  datatype Prefilled = Prefilled(index: nat, tx: Option<Tx>)

  datatype Message = Message(shortIds: seq<nat>, prefilled: seq<Prefilled>)

  datatype Status = Ok | Invalid | Failed | CheckBlockFailed

  /** What CheckBlock says about a rebuilt block. */
  datatype Checked = Accepted | Mutated | Rejected

  const UINT16_MAX := 65535

  // ----- Slots -----

  function Count(m: Message): nat {
    |m.shortIds| + |m.prefilled|
  }

  /** The slot of the prefilled transaction `i`. */
  function Slot(pre: seq<Prefilled>, i: nat): (p: int)
    requires i < |pre|
    ensures p >= i
  {
    (if i == 0 then -1 else Slot(pre, i - 1)) + pre[i].index + 1
  }

  /** Increasing positions, each sent as the number of places since the one before. */
  function Differences(pos: seq<nat>, txs: seq<Tx>): (pre: seq<Prefilled>)
    requires |pos| == |txs| && forall i, j :: 0 <= i < j < |pos| ==> pos[i] < pos[j]
    ensures |pre| == |pos|
  {
    seq(|pos|, i requires 0 <= i < |pos| => Prefilled(if i == 0 then pos[0] else pos[i] - pos[i - 1] - 1, Some(txs[i])))
  }

  /** The receiver finds the positions that were sent. */
  lemma {:induction false} SlotsArePositions(pos: seq<nat>, txs: seq<Tx>, i: nat)
    requires |pos| == |txs| && (forall i, j :: 0 <= i < j < |pos| ==> pos[i] < pos[j]) && i < |pos|
    ensures Slot(Differences(pos, txs), i) == pos[i]
  {
    if i > 0 {
      SlotsArePositions(pos, txs, i - 1);
    }
  }

  /** No prefilled transaction is empty or beyond the slots that the short ids leave. */
  ghost predicate Acceptable(m: Message) {
    forall i :: 0 <= i < |m.prefilled| ==>
      && m.prefilled[i].tx.Some?
      && Slot(m.prefilled, i) <= UINT16_MAX && Slot(m.prefilled, i) <= |m.shortIds| + i
  }

  /** How many slots are empty. */
  function Free(slots: seq<Option<Tx>>): (n: nat)
    ensures n <= |slots|
  {
    if slots == [] then 0 else Free(slots[..|slots| - 1]) + if slots[|slots| - 1].None? then 1 else 0
  }

  lemma FreeNext(slots: seq<Option<Tx>>, k: nat)
    requires k < |slots|
    ensures Free(slots[..k + 1]) == Free(slots[..k]) + if slots[k].None? then 1 else 0
  {
    assert slots[..k + 1][..k] == slots[..k];
  }

  lemma {:induction false} FreeFill(slots: seq<Option<Tx>>, k: nat, tx: Tx)
    requires k < |slots| && slots[k].None?
    ensures Free(slots[k := Some(tx)]) == Free(slots) - 1
  {
    var n := |slots| - 1;
    if k == n {
      assert slots[k := Some(tx)][..n] == slots[..n];
    } else {
      FreeFill(slots[..n], k, tx);
      assert slots[k := Some(tx)][..n] == slots[..n][k := Some(tx)];
    }
  }

  lemma {:induction false} FreeMonotone(slots: seq<Option<Tx>>, k: nat)
    requires k <= |slots|
    ensures Free(slots[..k]) <= Free(slots)
  {
    if k == |slots| {
      assert slots[..k] == slots;
    } else {
      FreeMonotone(slots[..|slots| - 1], k);
      assert slots[..|slots| - 1][..k] == slots[..k];
    }
  }

  function Empty(n: nat): (s: seq<Option<Tx>>)
    ensures |s| == n && forall k :: 0 <= k < n ==> s[k].None?
  {
    seq(n, _ => None)
  }

  lemma {:induction false} AllFree(n: nat)
    ensures Free(Empty(n)) == n
  {
    if n > 0 {
      AllFree(n - 1);
      assert Empty(n)[..n - 1] == Empty(n - 1);
    }
  }

  /** The slots with exactly the prefilled transactions in place. */
  ghost predicate Placed(m: Message, slots: seq<Option<Tx>>, n: nat)
    requires n <= |m.prefilled|
  {
    && |slots| == Count(m)
    && Free(slots) == Count(m) - n
    && (forall i :: 0 <= i < n ==> Slot(m.prefilled, i) < Count(m) && slots[Slot(m.prefilled, i)] == m.prefilled[i].tx)
    && (forall k :: 0 <= k < |slots| && slots[k].Some? ==> From(m.prefilled, n, k))
  }

  /** Slot `k` is that of one of the first `n` prefilled transactions. */
  ghost predicate From(pre: seq<Prefilled>, n: nat, k: nat)
    requires n <= |pre|
  {
    exists i :: 0 <= i < n && Slot(pre, i) == k
  }

  lemma FromNext(pre: seq<Prefilled>, n: nat, k: nat)
    requires n < |pre|
    ensures From(pre, n + 1, k) <==> From(pre, n, k) || Slot(pre, n) == k
    ensures From(pre, n, k) ==> k < Slot(pre, n)
  {
    if From(pre, n, k) {
      var i :| 0 <= i < n && Slot(pre, i) == k;
      SlotsGrow(pre, i, n);
    }
  }

  lemma {:induction false} SlotsGrow(pre: seq<Prefilled>, i: nat, j: nat)
    requires i < j < |pre|
    ensures Slot(pre, i) < Slot(pre, j)
  {
    if i < j - 1 {
      SlotsGrow(pre, i, j - 1);
    }
  }

  lemma PlaceNext(m: Message, slots: seq<Option<Tx>>, n: nat)
    requires n < |m.prefilled| && Placed(m, slots, n)
    requires m.prefilled[n].tx.Some? && Slot(m.prefilled, n) <= |m.shortIds| + n
    ensures Slot(m.prefilled, n) < |slots| && Placed(m, slots[Slot(m.prefilled, n) := m.prefilled[n].tx], n + 1)
  {
    hide From, Slot;
    var p, pre := Slot(m.prefilled, n), m.prefilled;
    FromNext(pre, n, p);
    FreeFill(slots, p, pre[n].tx.value);
    hide Free;
    var slots' := slots[p := pre[n].tx];
    forall i | 0 <= i < n + 1 ensures Slot(pre, i) < Count(m) && slots'[Slot(pre, i)] == pre[i].tx {
      if i < n {
        SlotsGrow(pre, i, n);
      }
    }
    forall k | 0 <= k < |slots'| && slots'[k].Some? ensures From(pre, n + 1, k) {
      FromNext(pre, n, k);
    }
  }

  // ----- Short ids -----

  /** Slot `k` is the empty slot number `i`, counted from zero. */
  ghost predicate IsFree(slots: seq<Option<Tx>>, k: nat, i: nat) {
    k < |slots| && slots[k].None? && Free(slots[..k]) == i
  }

  lemma FreeIsUnique(slots: seq<Option<Tx>>, k: nat, l: nat, i: nat)
    requires IsFree(slots, k, i) && IsFree(slots, l, i)
    ensures k == l
  {
    if k < l {
      FreeNext(slots, k);
      assert slots[..l][..k + 1] == slots[..k + 1];
      FreeMonotone(slots[..l], k + 1);
    } else if l < k {
      FreeNext(slots, l);
      assert slots[..k][..l + 1] == slots[..l + 1];
      FreeMonotone(slots[..k], l + 1);
    }
  }

  lemma {:induction false} FreeExists(slots: seq<Option<Tx>>, i: nat) returns (k: nat)
    requires i < Free(slots)
    ensures IsFree(slots, k, i)
  {
    var n := |slots| - 1;
    if i == Free(slots[..n]) {
      k := n;
    } else {
      k := FreeExists(slots[..n], i);
      assert slots[..n][..k] == slots[..k];
    }
  }

  /**
   Prefilled transactions and short ids cover every slot exactly once: a slot is either that
   of a prefilled transaction or that of the short id with its number, and every short id
   has its slot.
   */
  lemma CoverExactlyOnce(m: Message, base: seq<Option<Tx>>, k: nat, i: nat)
    requires Placed(m, base, |m.prefilled|) && Acceptable(m) && k < |base| && i < |m.shortIds|
    ensures From(m.prefilled, |m.prefilled|, k) <==> base[k].Some?
    ensures base[k].None? ==> Free(base[..k]) < |m.shortIds| && IsFree(base, k, Free(base[..k]))
    ensures exists l: nat :: IsFree(base, l, i)
    ensures forall l: nat :: IsFree(base, k, i) && IsFree(base, l, i) ==> l == k
  {
    FreeNext(base, k);
    FreeMonotone(base, k + 1);
    var l := FreeExists(base, i);
    forall l: nat | IsFree(base, k, i) && IsFree(base, l, i) ensures l == k {
      FreeIsUnique(base, k, l, i);
    }
  }

  ghost predicate Distinct(ids: seq<nat>) {
    forall i, j :: 0 <= i < j < |ids| ==> ids[i] != ids[j]
  }

  /** Short id `id` was sent to the empty slot with its number. */
  ghost predicate Sent(ids: seq<nat>, slots: seq<Option<Tx>>, id: nat, k: nat) {
    k < |slots| && slots[k].None? && Free(slots[..k]) < |ids| && ids[Free(slots[..k])] == id
  }

  /** The table sends every short id to the empty slot with its number. */
  ghost predicate Assigned(ids: seq<nat>, slots: seq<Option<Tx>>, table: map<nat, nat>) {
    && (forall id :: id in table ==> Sent(ids, slots, id, table[id]))
    && (forall i :: 0 <= i < |ids| ==> ids[i] in table)
    && |table.Keys| <= |ids| && (|table.Keys| == |ids| <==> Distinct(ids))
  }

  lemma AssignNext(ids: seq<nat>, i: nat, slots: seq<Option<Tx>>, table: map<nat, nat>, k: nat)
    requires i < |ids| && Assigned(ids[..i], slots, table) && IsFree(slots, k, i)
    ensures Assigned(ids[..i + 1], slots, table[ids[i] := k])
  {
    hide Free;
    var table', next := table[ids[i] := k], ids[..i + 1];
    assert next == ids[..i] + [ids[i]];
    DistinctNext(ids[..i], ids[i]);
    if ids[i] in table {
      assert table'.Keys == table.Keys;
      assert Sent(ids[..i], slots, ids[i], table[ids[i]]);
    } else {
      assert table'.Keys == table.Keys + {ids[i]};
    }
  }

  lemma DistinctNext(ids: seq<nat>, id: nat)
    ensures Distinct(ids + [id]) <==> Distinct(ids) && id !in ids
  {
    var next := ids + [id];
    if Distinct(next) {
      assert forall i :: 0 <= i < |ids| ==> next[i] == ids[i] && next[i] != next[|ids|];
    }
  }

  /** The empty slot number `i`. */
  ghost function NthFree(slots: seq<Option<Tx>>, i: nat): (k: nat)
    requires i < Free(slots)
    ensures IsFree(slots, k, i)
  {
    var n := |slots| - 1;
    if i == Free(slots[..n]) then n else
    var k := NthFree(slots[..n], i);
    assert slots[..n][..k] == slots[..k];
    k
  }

  /** The table when the first `i` short ids were entered. */
  ghost function TableAfter(ids: seq<nat>, slots: seq<Option<Tx>>, i: nat): map<nat, nat>
    requires i <= |ids| && Free(slots) == |ids|
  {
    if i == 0 then map[] else TableAfter(ids, slots, i - 1)[ids[i - 1] := NthFree(slots, i - 1)]
  }

  /** No entry finds its hash bucket overfull, given the table it was entered into. */
  ghost predicate Uncrowded(ids: seq<nat>, slots: seq<Option<Tx>>, crowded: (map<nat, nat>, nat) -> bool)
    requires Free(slots) == |ids|
  {
    forall i :: 0 <= i < |ids| ==> !crowded(TableAfter(ids, slots, i + 1), ids[i])
  }

  /** Walk over the short ids and the empty slots side by side; an overfull hash bucket gives up. */
  method AssignSlots(ids: seq<nat>, slots: seq<Option<Tx>>, crowded: (map<nat, nat>, nat) -> bool)
    returns (status: Status, table: map<nat, nat>)
    requires Free(slots) == |ids|
    ensures status == if Distinct(ids) && Uncrowded(ids, slots, crowded) then Ok else Failed
    ensures status.Ok? ==> Assigned(ids, slots, table) && table == TableAfter(ids, slots, |ids|)
  {
    hide Free, Assigned, Distinct, TableAfter, NthFree, Uncrowded;
    table := map[];
    TableStarts(ids, slots);
    var offset := 0;
    NothingAssigned(slots);
    assert slots[..0] == [] && ids[..0] == [];
    for i := 0 to |ids|
      invariant offset >= 0 && i + offset <= |slots| && Free(slots[..i + offset]) == i
      invariant Assigned(ids[..i], slots, table)
      invariant table == TableAfter(ids, slots, i)
      invariant forall j :: 0 <= j < i ==> !crowded(TableAfter(ids, slots, j + 1), ids[j])
    {
      FreeLeft(slots, i + offset, |ids|);
      while slots[i + offset].Some?
        invariant offset >= 0 && i + offset < |slots| && Free(slots[..i + offset]) == i
        decreases |slots| - offset
      {
        FreeNext(slots, i + offset);
        offset := offset + 1;
        FreeLeft(slots, i + offset, |ids|);
      }
      AssignNext(ids, i, slots, table, i + offset);
      FreeIsUnique(slots, i + offset, NthFree(slots, i), i);
      TableNext(ids, slots, i);
      table := table[ids[i] := i + offset];
      FreeNext(slots, i + offset);
      if crowded(table, ids[i]) {
        CrowdedAt(ids, slots, crowded, i);
        return Failed, table;
      }
    }
    assert ids[..|ids|] == ids;
    AssignedDistinct(ids, slots, table);
    NoneCrowded(ids, slots, crowded);
    status := if |table| != |ids| then Failed else Ok;
  }

  lemma TableStarts(ids: seq<nat>, slots: seq<Option<Tx>>)
    requires Free(slots) == |ids|
    ensures TableAfter(ids, slots, 0) == map[]
  {
  }

  lemma TableNext(ids: seq<nat>, slots: seq<Option<Tx>>, i: nat)
    requires i < |ids| && Free(slots) == |ids|
    ensures TableAfter(ids, slots, i + 1) == TableAfter(ids, slots, i)[ids[i] := NthFree(slots, i)]
  {
  }

  lemma CrowdedAt(ids: seq<nat>, slots: seq<Option<Tx>>, crowded: (map<nat, nat>, nat) -> bool, i: nat)
    requires Free(slots) == |ids| && i < |ids| && crowded(TableAfter(ids, slots, i + 1), ids[i])
    ensures !Uncrowded(ids, slots, crowded)
  {
  }

  lemma NoneCrowded(ids: seq<nat>, slots: seq<Option<Tx>>, crowded: (map<nat, nat>, nat) -> bool)
    requires Free(slots) == |ids|
    requires forall i :: 0 <= i < |ids| ==> !crowded(TableAfter(ids, slots, i + 1), ids[i])
    ensures Uncrowded(ids, slots, crowded)
  {
  }

  lemma AssignedDistinct(ids: seq<nat>, slots: seq<Option<Tx>>, table: map<nat, nat>)
    requires Assigned(ids, slots, table)
    ensures |table| == |ids| <==> Distinct(ids)
  {
    assert |table| == |table.Keys|;
  }

  lemma NothingAssigned(slots: seq<Option<Tx>>)
    ensures Assigned([], slots, map[]) && Free([]) == 0
  {
  }

  /** As long as short ids are left, so are empty slots. */
  lemma FreeLeft(slots: seq<Option<Tx>>, k: nat, n: nat)
    requires k <= |slots| && Free(slots[..k]) < n && Free(slots) == n
    ensures k < |slots|
  {
    assert slots[..|slots|] == slots;
  }

  // ----- Matching -----

  /** The short id that each slot waits for; None for the slots of prefilled transactions. */
  ghost function Wants(ids: seq<nat>, base: seq<Option<Tx>>): (want: seq<Option<nat>>)
    ensures |want| == |base|
  {
    seq(|base|, k requires 0 <= k < |base| =>
      if base[k].Some? || Free(base[..k]) >= |ids| then None else Some(ids[Free(base[..k])]))
  }

  /** The table leads from a short id to the one slot that waits for it. */
  ghost predicate Leads(want: seq<Option<nat>>, table: map<nat, nat>) {
    && (forall id :: id in table ==> table[id] < |want| && want[table[id]] == Some(id))
    && (forall k :: 0 <= k < |want| && want[k].Some? ==> want[k].value in table && table[want[k].value] == k)
  }

  lemma TableLeads(ids: seq<nat>, base: seq<Option<Tx>>, table: map<nat, nat>)
    requires Assigned(ids, base, table) && Distinct(ids)
    ensures Leads(Wants(ids, base), table)
  {
    hide Free;
    var want := Wants(ids, base);
    forall k | 0 <= k < |want| && want[k].Some? ensures want[k].value in table && table[want[k].value] == k {
      var id, i := want[k].value, Free(base[..k]);
      assert id == ids[i];
      assert Sent(ids, base, id, table[id]);
      assert IsFree(base, table[id], i) && IsFree(base, k, i);
      FreeIsUnique(base, k, table[id], i);
    }
    forall id | id in table ensures table[id] < |want| && want[table[id]] == Some(id) {
      assert Sent(ids, base, id, table[id]);
    }
  }

  /** The transactions with a short id, in order. */
  ghost function Candidates(sid: Tx -> nat, txs: seq<Tx>, id: nat): (c: seq<Tx>)
    ensures forall tx :: tx in c <==> tx in txs && sid(tx) == id
  {
    if txs == [] then [] else
    var n := |txs| - 1;
    assert txs == txs[..n] + [txs[n]];
    Candidates(sid, txs[..n], id) + if sid(txs[n]) == id then [txs[n]] else []
  }

  lemma CandidatesNext(sid: Tx -> nat, txs: seq<Tx>, n: nat, id: nat)
    requires n < |txs|
    ensures Candidates(sid, txs[..n + 1], id) == Candidates(sid, txs[..n], id) + if sid(txs[n]) == id then [txs[n]] else []
  {
    assert txs[..n + 1][..n] == txs[..n];
  }

  lemma {:induction false} CandidatesDistinct(sid: Tx -> nat, txs: seq<Tx>, id: nat)
    requires Distinct(txs)
    ensures Distinct(Candidates(sid, txs, id))
  {
    if txs != [] {
      var n := |txs| - 1;
      CandidatesDistinct(sid, txs[..n], id);
      assert txs[n] !in txs[..n];
      DistinctNext(Candidates(sid, txs[..n], id), txs[n]);
    }
  }

  /**
   What a slot holds when `pool` and `extra` are the candidates for it: the first one, unless the
   pool has two, or `extra` has one that is another transaction.
   */
  ghost function Pick(pool: seq<Tx>, extra: seq<Tx>): Option<Tx> {
    var all := pool + extra;
    if all == [] || |pool| > 1 || (exists tx :: tx in extra && tx != all[0]) then None else Some(all[0])
  }

  lemma PickPool(pool: seq<Tx>, tx: Tx)
    ensures Pick(pool + [tx], []) == if pool == [] then Some(tx) else None
  {
  }

  lemma PickExtra(pool: seq<Tx>, extra: seq<Tx>, tx: Tx)
    ensures var now, before := Pick(pool, extra + [tx]), Pick(pool, extra);
            now == if pool + extra == [] then Some(tx) else if before == Some(tx) then before else None
  {
    var all := pool + extra;
    assert pool + (extra + [tx]) == all + [tx];
    assert tx in extra + [tx];
    assert forall x :: x in extra ==> x in extra + [tx];
  }

  /** The slots when `pool` and `extra` were looked through. */
  ghost function Shown(base: seq<Option<Tx>>, want: seq<Option<nat>>, sid: Tx -> nat, pool: seq<Tx>, extra: seq<Tx>)
    : (slots: seq<Option<Tx>>)
    requires |want| == |base|
    ensures |slots| == |base|
  {
    seq(|base|, k requires 0 <= k < |base| =>
      if want[k].None? then base[k]
      else Pick(Candidates(sid, pool, want[k].value), Candidates(sid, extra, want[k].value)))
  }

  /** Which slots a candidate was found for. */
  ghost predicate Marks(want: seq<Option<nat>>, sid: Tx -> nat, pool: seq<Tx>, extra: seq<Tx>, have: seq<bool>) {
    && |have| == |want|
    && forall k :: 0 <= k < |want| && want[k].Some? ==> (have[k] <==> Found(sid, pool, extra, want[k].value))
  }

  ghost predicate Found(sid: Tx -> nat, pool: seq<Tx>, extra: seq<Tx>, id: nat) {
    Candidates(sid, pool, id) + Candidates(sid, extra, id) != []
  }

  lemma NothingShown(ids: seq<nat>, base: seq<Option<Tx>>, sid: Tx -> nat, have: seq<bool>)
    requires have == seq(|base|, _ => false)
    ensures Shown(base, Wants(ids, base), sid, [], []) == base
    ensures Marks(Wants(ids, base), sid, [], [], have)
  {
  }

  /** What one more transaction of the pool does to the slot that waits for `id`. */
  lemma PoolSlot(sid: Tx -> nat, pool: seq<Tx>, n: nat, id: nat)
    requires n < |pool|
    ensures var p, p' := Candidates(sid, pool[..n], id), Candidates(sid, pool[..n + 1], id);
            var e := Candidates(sid, [], id);
            if sid(pool[n]) != id then p' == p
            else p' + e != [] && Pick(p', e) == if p + e == [] then Some(pool[n]) else None
  {
    CandidatesNext(sid, pool, n, id);
    PickPool(Candidates(sid, pool[..n], id), pool[n]);
  }

  lemma ExtraSlot(sid: Tx -> nat, pool: seq<Tx>, extra: seq<Tx>, n: nat, id: nat)
    requires n < |extra|
    ensures var p, e, e' := Candidates(sid, pool, id), Candidates(sid, extra[..n], id), Candidates(sid, extra[..n + 1], id);
            if sid(extra[n]) != id then e' == e
            else && p + e' != []
                 && Pick(p, e') == if p + e == [] then Some(extra[n])
                                   else if Pick(p, e) == Some(extra[n]) then Pick(p, e) else None
  {
    CandidatesNext(sid, extra, n, id);
    PickExtra(Candidates(sid, pool, id), Candidates(sid, extra[..n], id), extra[n]);
  }

  /** What a slot holds. */
  lemma ShownAt(base: seq<Option<Tx>>, want: seq<Option<nat>>, sid: Tx -> nat, pool: seq<Tx>, extra: seq<Tx>, k: nat)
    requires |want| == |base| && k < |base|
    ensures Shown(base, want, sid, pool, extra)[k] ==
            if want[k].None? then base[k]
            else Pick(Candidates(sid, pool, want[k].value), Candidates(sid, extra, want[k].value))
  {
    hide Candidates, Pick;
  }

  /** Only the slot that waits for `id` changes, to `v`. */
  lemma SlotsNext(want: seq<Option<nat>>, table: map<nat, nat>, id: nat, slots: seq<Option<Tx>>, next: seq<Option<Tx>>, v: Option<Tx>)
    requires Leads(want, table) && |slots| == |next| == |want|
    requires forall k :: 0 <= k < |want| ==> next[k] == if want[k] == Some(id) then v else slots[k]
    ensures if id in table then table[id] < |slots| && next == slots[table[id] := v] else next == slots
  {
  }

  lemma MarksNext(want: seq<Option<nat>>, table: map<nat, nat>, sid: Tx -> nat, id: nat, pool: seq<Tx>, extra: seq<Tx>,
                  pool': seq<Tx>, extra': seq<Tx>, have: seq<bool>)
    requires Leads(want, table) && Marks(want, sid, pool, extra, have)
    requires forall k :: 0 <= k < |want| && want[k].Some? ==>
      (Found(sid, pool', extra', want[k].value) <==> want[k].value == id || Found(sid, pool, extra, want[k].value))
    ensures if id in table then table[id] < |have| && Marks(want, sid, pool', extra', have[table[id] := true])
            else Marks(want, sid, pool', extra', have)
  {
    hide Found;
  }

  /** One more transaction of the pool. */
  lemma PoolNext(base: seq<Option<Tx>>, want: seq<Option<nat>>, table: map<nat, nat>, sid: Tx -> nat,
                 pool: seq<Tx>, n: nat, have: seq<bool>)
    requires |want| == |base| && Leads(want, table) && n < |pool| && Marks(want, sid, pool[..n], [], have)
    ensures var id, slots, next := sid(pool[n]), Shown(base, want, sid, pool[..n], []), Shown(base, want, sid, pool[..n + 1], []);
            if id !in table then next == slots && Marks(want, sid, pool[..n + 1], [], have)
            else
              var k := table[id];
              && k < |have| == |slots| && next == slots[k := if have[k] then None else Some(pool[n])]
              && Marks(want, sid, pool[..n + 1], [], have[k := true])
  {
    var id, slots, next := sid(pool[n]), Shown(base, want, sid, pool[..n], []), Shown(base, want, sid, pool[..n + 1], []);
    LeadsBound(want, table, id);
    var v := if id !in table || have[table[id]] then None else Some(pool[n]);
    forall k | 0 <= k < |want|
      ensures next[k] == if want[k] == Some(id) then v else slots[k]
      ensures want[k].Some? ==>
        (Found(sid, pool[..n + 1], [], want[k].value) <==> want[k].value == id || Found(sid, pool[..n], [], want[k].value))
    {
      hide Shown, Candidates, Pick;
      ShownAt(base, want, sid, pool[..n], [], k);
      ShownAt(base, want, sid, pool[..n + 1], [], k);
      if want[k].Some? {
        PoolSlot(sid, pool, n, want[k].value);
      }
    }
    hide Shown, Marks, Found, Leads;
    SlotsNext(want, table, id, slots, next, v);
    MarksNext(want, table, sid, id, pool[..n], [], pool[..n + 1], [], have);
  }

  lemma LeadsBound(want: seq<Option<nat>>, table: map<nat, nat>, id: nat)
    requires Leads(want, table)
    ensures id in table ==> table[id] < |want| && want[table[id]] == Some(id)
    ensures forall k :: 0 <= k < |want| && want[k] == Some(id) ==> id in table && table[id] == k
  {
  }

  /** One more of the extra transactions. */
  lemma ExtraNext(base: seq<Option<Tx>>, want: seq<Option<nat>>, table: map<nat, nat>, sid: Tx -> nat,
                  pool: seq<Tx>, extra: seq<Tx>, n: nat, have: seq<bool>)
    requires |want| == |base| && Leads(want, table) && n < |extra| && Marks(want, sid, pool, extra[..n], have)
    ensures var id, slots, next := sid(extra[n]), Shown(base, want, sid, pool, extra[..n]), Shown(base, want, sid, pool, extra[..n + 1]);
            if id !in table then next == slots && Marks(want, sid, pool, extra[..n + 1], have)
            else
              var k := table[id];
              && k < |have| == |slots|
              && next == slots[k := if !have[k] then Some(extra[n]) else if slots[k] == Some(extra[n]) then slots[k] else None]
              && Marks(want, sid, pool, extra[..n + 1], have[k := true])
  {
    var id, slots, next := sid(extra[n]), Shown(base, want, sid, pool, extra[..n]), Shown(base, want, sid, pool, extra[..n + 1]);
    LeadsBound(want, table, id);
    var v := if id !in table then None else var k := table[id];
             if !have[k] then Some(extra[n]) else if slots[k] == Some(extra[n]) then slots[k] else None;
    forall k | 0 <= k < |want|
      ensures next[k] == if want[k] == Some(id) then v else slots[k]
      ensures want[k].Some? ==>
        (Found(sid, pool, extra[..n + 1], want[k].value) <==> want[k].value == id || Found(sid, pool, extra[..n], want[k].value))
    {
      hide Shown, Candidates, Pick;
      ShownAt(base, want, sid, pool, extra[..n], k);
      ShownAt(base, want, sid, pool, extra[..n + 1], k);
      if want[k].Some? {
        ExtraSlot(sid, pool, extra, n, want[k].value);
      }
    }
    hide Shown, Marks, Found, Leads;
    SlotsNext(want, table, id, slots, next, v);
    MarksNext(want, table, sid, id, pool, extra[..n], pool, extra[..n + 1], have);
  }

  /** The scan of the pool went through its first `n` transactions: all, or as many as left no slot empty. */
  ghost predicate PoolStopped(base: seq<Option<Tx>>, want: seq<Option<nat>>, sid: Tx -> nat, pool: seq<Tx>, n: nat)
    requires |want| == |base|
  {
    && n <= |pool|
    && (n < |pool| ==> n > 0 && Free(Shown(base, want, sid, pool[..n], [])) == 0)
    && forall j :: 0 < j < n ==> Free(Shown(base, want, sid, pool[..j], [])) != 0
  }

  ghost predicate ExtraStopped(base: seq<Option<Tx>>, want: seq<Option<nat>>, sid: Tx -> nat, pool: seq<Tx>,
                               extra: seq<Tx>, e: nat)
    requires |want| == |base|
  {
    && e <= |extra|
    && (e < |extra| ==> e > 0 && Free(Shown(base, want, sid, pool, extra[..e])) == 0)
    && forall j :: 0 < j < e ==> Free(Shown(base, want, sid, pool, extra[..j])) != 0
  }

  // ----- The block under construction -----

  class PartiallyDownloadedBlock {
    var hasHeader: bool
    var available: seq<Option<Tx>>
    var mempoolCount: int
    var extraCount: int

    constructor ()
      ensures !hasHeader && available == [] && mempoolCount == 0
    {
      hasHeader, available, mempoolCount, extraCount := false, [], 0, 0;
    }

    /**
     Set up the slots of an announced block: place the prefilled transactions, assign the
     short ids to the other slots, and look for their transactions in the pool and in `extra`.
     */
    method InitData(m: Message, sid: Tx -> nat, maxCount: nat, crowded: (map<nat, nat>, nat) -> bool,
                    pool: seq<Tx>, extra: seq<Tx>)
      returns (status: Status, ghost base: seq<Option<Tx>>, ghost n: nat, ghost e: nat)
      requires !hasHeader && available == [] && mempoolCount == 0 && Count(m) <= UINT16_MAX
      modifies this
      ensures status.Invalid? <==> Count(m) == 0 || Count(m) > maxCount || !Acceptable(m)
      ensures !status.Invalid? ==> Placed(m, base, |m.prefilled|) && Free(base) == |m.shortIds|
      ensures !status.Invalid? ==> status == if Distinct(m.shortIds) && Uncrowded(m.shortIds, base, crowded) then Ok else Failed
      ensures status.Ok? ==> hasHeader && n <= |pool| && e <= |extra|
      ensures status.Ok? ==> var want := Wants(m.shortIds, base);
        && available == Shown(base, want, sid, pool[..n], extra[..e])
        && PoolStopped(base, want, sid, pool, n) && ExtraStopped(base, want, sid, pool[..n], extra, e)
    {
      hide *;
      base, n, e := [], 0, 0;
      CountIs(m);
      if |m.shortIds| == 0 && |m.prefilled| == 0 {
        return Invalid, base, n, e;
      }
      if Count(m) > maxCount {
        return Invalid, base, n, e;
      }
      hasHeader := true;
      status, available := PlacePrefilled(m);
      if !status.Ok? {
        return;
      }
      base := available;
      FreeAfter(m, base);
      var table;
      status, table := AssignSlots(m.shortIds, available, crowded);
      if !status.Ok? {
        return;
      }
      ghost var want := Wants(m.shortIds, base);
      TableLeads(m.shortIds, base, table);
      AssignedDistinct(m.shortIds, base, table);
      PlacedSize(m, base);
      var have := seq(|available|, _ => false);
      NothingShown(m.shortIds, base, sid, have);
      have, n := MatchPool(sid, table, pool, have, base, want);
      StoppedInside(base, want, sid, pool, n);
      e := MatchExtra(sid, table, pool[..n], extra, have, base, want);
    }

    method MatchPool(sid: Tx -> nat, table: map<nat, nat>, pool: seq<Tx>, found: seq<bool>,
                     ghost base: seq<Option<Tx>>, ghost want: seq<Option<nat>>) returns (have: seq<bool>, ghost n: nat)
      requires |found| == |available| == |base| == |want| && Leads(want, table) && |table| == Free(base) && mempoolCount == 0
      requires available == base == Shown(base, want, sid, [], []) && Marks(want, sid, [], [], found)
      modifies this`available, this`mempoolCount
      ensures PoolStopped(base, want, sid, pool, n) && available == Shown(base, want, sid, pool[..n], [])
      ensures |have| == |base| && Marks(want, sid, pool[..n], [], have) && mempoolCount == Free(base) - Free(available)
    {
      hide Shown, Leads, Marks, Free;
      have, n := found, 0;
      assert pool[..0] == [];
      for i := 0 to |pool|
        invariant n == i && |have| == |available| == |base|
        invariant available == Shown(base, want, sid, pool[..i], []) && Marks(want, sid, pool[..i], [], have)
        invariant mempoolCount == Free(base) - Free(available)
        invariant forall j :: 0 < j <= i ==> Free(Shown(base, want, sid, pool[..j], [])) != 0
      {
        var id := sid(pool[i]);
        PoolNext(base, want, table, sid, pool, i, have);
        if id in table {
          LeadsInside(want, table, id);
          var k := table[id];
          MarkedOrEmpty(base, want, sid, pool[..i], [], have, k);
          FreeChange(available, k);
          assert available[k := available[k]] == available;
          if !have[k] {
            available := available[k := Some(pool[i])];
            have := have[k := true];
            mempoolCount := mempoolCount + 1;
          } else if available[k].Some? {
            available := available[k := None];
            mempoolCount := mempoolCount - 1;
          }
          assert have == have[k := true];
        }
        n := i + 1;
        if mempoolCount == |table| {
          break;
        }
      }
    }

    method MatchExtra(sid: Tx -> nat, table: map<nat, nat>, ghost pool: seq<Tx>, extra: seq<Tx>, found: seq<bool>,
                      ghost base: seq<Option<Tx>>, ghost want: seq<Option<nat>>) returns (ghost n: nat)
      requires |found| == |available| == |base| == |want| && Leads(want, table) && |table| == Free(base)
      requires available == Shown(base, want, sid, pool, []) && Marks(want, sid, pool, [], found)
      requires mempoolCount == Free(base) - Free(available)
      modifies this`available, this`mempoolCount, this`extraCount
      ensures n <= |extra| && ExtraStopped(base, want, sid, pool, extra, n) && available == Shown(base, want, sid, pool, extra[..n])
      ensures mempoolCount == Free(base) - Free(available)
    {
      hide Shown, Leads, Marks, Free;
      var have := found;
      n := 0;
      assert extra[..0] == [];
      assert Shown(base, want, sid, pool, extra[..0]) == available;
      for i := 0 to |extra|
        invariant n == i && |have| == |available| == |base|
        invariant available == Shown(base, want, sid, pool, extra[..i]) && Marks(want, sid, pool, extra[..i], have)
        invariant mempoolCount == Free(base) - Free(available)
        invariant forall j :: 0 < j <= i ==> Free(Shown(base, want, sid, pool, extra[..j])) != 0
      {
        var id := sid(extra[i]);
        ExtraNext(base, want, table, sid, pool, extra, i, have);
        if id in table {
          LeadsInside(want, table, id);
          var k := table[id];
          MarkedOrEmpty(base, want, sid, pool, extra[..i], have, k);
          FreeChange(available, k);
          assert available[k := available[k]] == available;
          if !have[k] {
            available := available[k := Some(extra[i])];
            have := have[k := true];
            mempoolCount := mempoolCount + 1;
            extraCount := extraCount + 1;
          } else if available[k].Some? && available[k].value != extra[i] {
            available := available[k := None];
            mempoolCount := mempoolCount - 1;
            extraCount := extraCount - 1;
          }
          assert have == have[k := true];
        }
        n := i + 1;
        if mempoolCount == |table| {
          break;
        }
      }
    }

    /**
     Put the missing transactions into the empty slots, in order.  After that the object cannot
     be used again; if too few were given, the slots up to the first one left without a
     transaction have been moved out.
     */
    method FillBlock(missing: seq<Tx>, check: seq<Tx> -> Checked) returns (status: Status, vtx: seq<Tx>)
      requires hasHeader
      modifies this
      ensures |missing| != Free(old(available)) ==> status.Invalid?
      ensures |missing| == Free(old(available)) ==>
        vtx == Filled(old(available), missing) && status == StatusOf(check(vtx))
      ensures |missing| >= Free(old(available)) ==> !hasHeader && available == []
      ensures |missing| < Free(old(available)) ==>
        && hasHeader
        && exists i: nat :: IsFree(old(available), i, |missing|) && available == Empty(i) + old(available)[i..]
    {
      hide Free, Filled;
      vtx := [];
      var used := 0;
      ghost var slots := available;
      FilledStarts(missing);
      assert slots[..0] == [] && available == Empty(0) + slots[0..];
      for i := 0 to |available|
        invariant hasHeader && |available| == |slots| && used == Free(slots[..i]) <= |missing|
        invariant available == Empty(i) + slots[i..]
        invariant vtx == Filled(slots[..i], missing)
      {
        FreeNext(slots, i);
        assert available[i] == slots[i];
        if available[i].None? {
          if |missing| <= used {
            FreeMonotone(slots, i + 1);
            assert IsFree(slots, i, |missing|);
            return Invalid, vtx;
          }
          FilledNext(slots, i, missing);
          vtx := vtx + [missing[used]];
          used := used + 1;
        } else {
          FilledNext(slots, i, missing);
          vtx := vtx + [available[i].value];
          available := available[i := None];
        }
        assert available == Empty(i + 1) + slots[i + 1..];
      }
      assert slots[..|slots|] == slots;
      hasHeader := false;
      available := [];
      if |missing| != used {
        return Invalid, vtx;
      }
      var state := check(vtx);
      if !state.Accepted? {
        if state.Mutated? {
          return Failed, vtx;
        }
        return CheckBlockFailed, vtx;
      }
      status := Ok;
    }
  }

  /** A block that was mutated may come from a collision of short ids. */
  function StatusOf(checked: Checked): Status {
    match checked
    case Accepted => Ok
    case Mutated => Failed
    case Rejected => CheckBlockFailed
  }

  lemma StoppedInside(base: seq<Option<Tx>>, want: seq<Option<nat>>, sid: Tx -> nat, pool: seq<Tx>, n: nat)
    requires |want| == |base| && PoolStopped(base, want, sid, pool, n)
    ensures n <= |pool|
  {
  }

  lemma LeadsInside(want: seq<Option<nat>>, table: map<nat, nat>, id: nat)
    requires Leads(want, table) && id in table
    ensures table[id] < |want| && want[table[id]] == Some(id)
  {
  }

  /** A slot that no candidate was found for is empty. */
  lemma MarkedOrEmpty(base: seq<Option<Tx>>, want: seq<Option<nat>>, sid: Tx -> nat, pool: seq<Tx>, extra: seq<Tx>,
                      have: seq<bool>, k: nat)
    requires |want| == |base| && Marks(want, sid, pool, extra, have) && k < |want| && want[k].Some?
    ensures !have[k] ==> Shown(base, want, sid, pool, extra)[k].None?
  {
  }

  lemma {:induction false} FreeChange(slots: seq<Option<Tx>>, k: nat)
    requires k < |slots|
    ensures slots[k].Some? ==> Free(slots[k := None]) == Free(slots) + 1
    ensures forall tx :: slots[k].None? ==> Free(slots[k := Some(tx)]) == Free(slots) - 1
  {
    if slots[k].Some? {
      var tx := slots[k].value;
      FreeFill(slots[k := None], k, tx);
      assert slots[k := None][k := Some(tx)] == slots;
    } else {
      forall tx ensures Free(slots[k := Some(tx)]) == Free(slots) - 1 {
        FreeFill(slots, k, tx);
      }
    }
  }

  lemma FilledStarts(missing: seq<Tx>)
    ensures Free([]) == 0 && Filled([], missing) == []
  {
  }

  lemma FilledNext(slots: seq<Option<Tx>>, i: nat, missing: seq<Tx>)
    requires i < |slots| && Free(slots[..i + 1]) <= |missing|
    ensures Free(slots[..i]) <= Free(slots[..i + 1])
    ensures slots[i].None? ==> Free(slots[..i]) < |missing|
    ensures Filled(slots[..i + 1], missing) ==
            Filled(slots[..i], missing) + [if slots[i].Some? then slots[i].value else missing[Free(slots[..i])]]
  {
    assert slots[..i + 1][..i] == slots[..i];
  }

  ghost function Known(pool: seq<Tx>, extra: seq<Tx>): set<Tx> {
    (set tx | tx in pool) + (set tx | tx in extra)
  }

  lemma CountIs(m: Message)
    ensures Count(m) == |m.shortIds| + |m.prefilled|
  {
  }

  lemma PlacedSize(m: Message, base: seq<Option<Tx>>)
    requires Placed(m, base, |m.prefilled|)
    ensures |base| == Count(m)
  {
  }

  lemma FreeAfter(m: Message, base: seq<Option<Tx>>)
    requires Placed(m, base, |m.prefilled|)
    ensures Free(base) == |m.shortIds|
  {
  }

  method PlacePrefilled(m: Message) returns (status: Status, slots: seq<Option<Tx>>)
    ensures status.Ok? <==> Acceptable(m)
    ensures status.Ok? || status.Invalid?
    ensures status.Ok? ==> Placed(m, slots, |m.prefilled|)
  {
    hide Placed, Slot;
    slots := Empty(Count(m));
    PlaceStarts(m);
    var last := -1;
    for i := 0 to |m.prefilled|
      invariant last == if i == 0 then -1 else Slot(m.prefilled, i - 1)
      invariant Placed(m, slots, i)
      invariant forall j :: 0 <= j < i ==> m.prefilled[j].tx.Some? && Slot(m.prefilled, j) <= UINT16_MAX
                                           && Slot(m.prefilled, j) <= |m.shortIds| + j
    {
      if m.prefilled[i].tx.None? {
        return Invalid, slots;
      }
      last := last + m.prefilled[i].index + 1;
      SlotIs(m.prefilled, i);
      if last > UINT16_MAX {
        return Invalid, slots;
      }
      if last > |m.shortIds| + i {
        return Invalid, slots;
      }
      PlaceNext(m, slots, i);
      slots := slots[last := m.prefilled[i].tx];
    }
    status := Ok;
  }

  lemma SlotIs(pre: seq<Prefilled>, i: nat)
    requires i < |pre|
    ensures Slot(pre, i) == (if i == 0 then -1 else Slot(pre, i - 1)) + pre[i].index + 1
  {
  }

  lemma PlaceStarts(m: Message)
    ensures Placed(m, Empty(Count(m)), 0)
  {
    AllFree(Count(m));
  }

  /** The slots with the missing transactions put into the empty ones. */
  function Filled(slots: seq<Option<Tx>>, missing: seq<Tx>): seq<Tx>
    requires Free(slots) <= |missing|
  {
    if slots == [] then [] else
    var n := |slots| - 1;
    Filled(slots[..n], missing) + [if slots[n].Some? then slots[n].value else missing[Free(slots[..n])]]
  }

  // ----- Reconstruction -----

  /** A message that is about the block: its prefilled transactions and its short ids are those of their slots. */
  ghost predicate Describes(m: Message, sid: Tx -> nat, block: seq<Tx>) {
    && |block| == Count(m)
    && (forall i :: 0 <= i < |m.prefilled| && Slot(m.prefilled, i) < |block| ==>
          m.prefilled[i].tx == Some(block[Slot(m.prefilled, i)]))
    && (forall base: seq<Option<Tx>>, k :: Placed(m, base, |m.prefilled|) && 0 <= k < |base| && base[k].None? ==>
          Sent(m.shortIds, base, sid(block[k]), k))
  }

  /** No known transaction has the short id of another one of the block. */
  ghost predicate NoMisleading(sid: Tx -> nat, block: seq<Tx>, known: set<Tx>) {
    forall tx, k :: tx in known && 0 <= k < |block| && sid(tx) == sid(block[k]) ==> tx == block[k]
  }

  /** Every slot is empty or right. */
  ghost predicate Right(slots: seq<Option<Tx>>, block: seq<Tx>) {
    |slots| == |block| && forall k :: 0 <= k < |slots| && slots[k].Some? ==> slots[k].value == block[k]
  }

  /** A slot of a described block waits for the short id of the block's transaction. */
  lemma WantsTheBlock(m: Message, sid: Tx -> nat, block: seq<Tx>, base: seq<Option<Tx>>, k: nat)
    requires Describes(m, sid, block) && Placed(m, base, |m.prefilled|) && k < |base|
    ensures var want := Wants(m.shortIds, base)[k];
            if base[k].None? then want == Some(sid(block[k])) else want.None? && base[k] == Some(block[k])
  {
    hide Free, Slot;
    if base[k].None? {
      assert Sent(m.shortIds, base, sid(block[k]), k);
    } else {
      assert From(m.prefilled, |m.prefilled|, k);
      var i :| 0 <= i < |m.prefilled| && Slot(m.prefilled, i) == k;
      assert m.prefilled[i].tx == Some(block[Slot(m.prefilled, i)]);
    }
  }

  /** Without misleading short ids a slot has candidates exactly if the block's transaction is there. */
  lemma PickIsRight(sid: Tx -> nat, block: seq<Tx>, k: nat, pool: seq<Tx>, extra: seq<Tx>)
    requires k < |block| && NoMisleading(sid, block, Known(pool, extra))
    ensures var p := Pick(Candidates(sid, pool, sid(block[k])), Candidates(sid, extra, sid(block[k])));
            && (p.Some? ==> p.value == block[k] && (block[k] in pool || block[k] in extra))
            && (Distinct(pool) && (block[k] in pool || block[k] in extra) ==> p.Some?)
  {
    hide Candidates;
    var p, e := Candidates(sid, pool, sid(block[k])), Candidates(sid, extra, sid(block[k]));
    forall tx | tx in p + e ensures tx == block[k] {
      assert tx in Known(pool, extra);
    }
    if p + e != [] {
      assert (p + e)[0] in p + e;
    }
    if Distinct(pool) && (block[k] in pool || block[k] in extra) {
      CandidatesDistinct(sid, pool, sid(block[k]));
      assert block[k] in p + e;
      if |p| > 1 {
        TwoDiffer(p, block[k]);
      }
      assert forall tx :: tx in e ==> tx in p + e;
    }
  }

  lemma TwoDiffer(p: seq<Tx>, x: Tx)
    requires Distinct(p) && |p| > 1
    ensures exists tx :: tx in p && tx != x
  {
    assert p[0] in p && p[1] in p && p[0] != p[1];
  }

  lemma KnownPrefix(sid: Tx -> nat, block: seq<Tx>, pool: seq<Tx>, extra: seq<Tx>, n: nat, e: nat)
    requires NoMisleading(sid, block, Known(pool, extra)) && n <= |pool| && e <= |extra|
    ensures NoMisleading(sid, block, Known(pool[..n], extra[..e])) && (Distinct(pool) ==> Distinct(pool[..n]))
  {
    assert Known(pool[..n], extra[..e]) <= Known(pool, extra);
  }

  /** Every slot that was filled is right. */
  lemma ShownIsRight(m: Message, sid: Tx -> nat, block: seq<Tx>, base: seq<Option<Tx>>, pool: seq<Tx>, extra: seq<Tx>)
    requires Describes(m, sid, block) && Placed(m, base, |m.prefilled|) && NoMisleading(sid, block, Known(pool, extra))
    ensures Right(Shown(base, Wants(m.shortIds, base), sid, pool, extra), block)
  {
    var want := Wants(m.shortIds, base);
    hide Describes, Wants, NoMisleading, Known, Free, Candidates, Pick;
    var slots := Shown(base, want, sid, pool, extra);
    assert |slots| == |block| by {
      DescribedSize(m, sid, block, base);
    }
    forall k | 0 <= k < |slots| && slots[k].Some? ensures slots[k].value == block[k] {
      WantsTheBlock(m, sid, block, base, k);
      PickIsRight(sid, block, k, pool, extra);
    }
  }

  lemma DescribedSize(m: Message, sid: Tx -> nat, block: seq<Tx>, base: seq<Option<Tx>>)
    requires Describes(m, sid, block) && Placed(m, base, |m.prefilled|)
    ensures |base| == |block|
  {
  }

  lemma {:induction false} NothingFree(slots: seq<Option<Tx>>, k: nat)
    requires Free(slots) == 0 && k < |slots|
    ensures slots[k].Some?
  {
    FreeNext(slots, k);
    FreeMonotone(slots, k + 1);
  }

  /**
   A node asks for exactly what it does not have: although the scans stop early, a slot that was
   not prefilled stays empty exactly if its transaction is neither in the pool nor in `extra`.
   */
  lemma AsksOnlyForUnknown(m: Message, sid: Tx -> nat, block: seq<Tx>, base: seq<Option<Tx>>,
                           pool: seq<Tx>, extra: seq<Tx>, n: nat, e: nat, k: nat)
    requires Describes(m, sid, block) && Placed(m, base, |m.prefilled|) && k < |base| && base[k].None?
    requires NoMisleading(sid, block, Known(pool, extra)) && Distinct(pool)
    requires n <= |pool| && e <= |extra| && PoolStopped(base, Wants(m.shortIds, base), sid, pool, n)
    requires ExtraStopped(base, Wants(m.shortIds, base), sid, pool[..n], extra, e)
    ensures k < |block|
    ensures Shown(base, Wants(m.shortIds, base), sid, pool[..n], extra[..e])[k].None? <==>
              block[k] !in pool && block[k] !in extra
  {
    hide Describes, Wants, NoMisleading, Known, Free, Candidates, Pick, Distinct, Placed;
    var want := Wants(m.shortIds, base);
    DescribedSize(m, sid, block, base);
    WantsTheBlock(m, sid, block, base, k);
    KnownPrefix(sid, block, pool, extra, n, e);
    KnownPrefix(sid, block, pool, extra, n, 0);
    PickIsRight(sid, block, k, pool[..n], extra[..e]);
    PickIsRight(sid, block, k, pool[..n], extra[..0]);
    assert extra[..0] == [];
    if n < |pool| {
      NothingFree(Shown(base, want, sid, pool[..n], []), k);
      assert block[k] in pool[..n];
    } else {
      assert pool[..n] == pool;
    }
    if e < |extra| {
      NothingFree(Shown(base, want, sid, pool[..n], extra[..e]), k);
    } else {
      assert extra[..e] == extra;
    }
  }

  /** The transactions of the empty slots, in order: what a node asks for. */
  function Missing(block: seq<Tx>, slots: seq<Option<Tx>>): (r: seq<Tx>)
    requires |block| == |slots|
    ensures |r| == Free(slots)
  {
    if slots == [] then [] else
    var n := |slots| - 1;
    Missing(block[..n], slots[..n]) + if slots[n].None? then [block[n]] else []
  }

  lemma {:induction false} FilledPrefix(slots: seq<Option<Tx>>, missing: seq<Tx>, more: seq<Tx>)
    requires Free(slots) <= |missing|
    ensures Filled(slots, missing + more) == Filled(slots, missing)
  {
    if slots != [] {
      FilledPrefix(slots[..|slots| - 1], missing, more);
    }
  }

  lemma {:induction false} FilledIsBlock(slots: seq<Option<Tx>>, block: seq<Tx>)
    requires Right(slots, block)
    ensures Filled(slots, Missing(block, slots)) == block
  {
    if slots != [] {
      var n := |slots| - 1;
      var front := Missing(block[..n], slots[..n]);
      FilledIsBlock(slots[..n], block[..n]);
      FilledPrefix(slots[..n], front, if slots[n].None? then [block[n]] else []);
      assert block == block[..n] + [block[n]];
    }
  }

  /** A message leaves no choice where its prefilled transactions go. */
  lemma OnlyBase(m: Message, base: seq<Option<Tx>>)
    requires Acceptable(m) && Placed(m, base, |m.prefilled|)
    ensures forall other :: Placed(m, other, |m.prefilled|) ==> other == base
  {
    forall other | Placed(m, other, |m.prefilled|) ensures other == base {
      SameBase(m, base, other);
    }
  }

  lemma SameBase(m: Message, base: seq<Option<Tx>>, other: seq<Option<Tx>>)
    requires Acceptable(m) && Placed(m, base, |m.prefilled|) && Placed(m, other, |m.prefilled|)
    ensures other == base
  {
    hide Placed, Acceptable;
    PlacedSize(m, base);
    PlacedSize(m, other);
    forall k | 0 <= k < |base| ensures other[k] == base[k] {
      FilledAlike(m, base, other, k);
      FilledAlike(m, other, base, k);
    }
  }

  lemma FilledAlike(m: Message, base: seq<Option<Tx>>, other: seq<Option<Tx>>, k: nat)
    requires Acceptable(m) && Placed(m, base, |m.prefilled|) && Placed(m, other, |m.prefilled|) && k < Count(m)
    ensures |base| == |other| == Count(m) && (base[k].Some? ==> other[k] == base[k])
  {
    hide Free, Slot;
    if base[k].Some? {
      assert From(m.prefilled, |m.prefilled|, k);
      var i :| 0 <= i < |m.prefilled| && Slot(m.prefilled, i) == k;
      assert other[Slot(m.prefilled, i)] == m.prefilled[i].tx;
    }
  }

  /** An honest message, no misleading short ids, and the missing transactions in order give the block back. */
  method Rebuild(m: Message, sid: Tx -> nat, maxCount: nat, crowded: (map<nat, nat>, nat) -> bool, pool: seq<Tx>, extra: seq<Tx>,
                 block: seq<Tx>, check: seq<Tx> -> Checked)
    returns (status: Status, vtx: seq<Tx>)
    requires Count(m) <= UINT16_MAX && Describes(m, sid, block) && NoMisleading(sid, block, Known(pool, extra))
    ensures status.Ok? ==> vtx == block
    ensures status.Ok? <==>
              && check(block).Accepted? && 0 < Count(m) <= maxCount && Acceptable(m) && Distinct(m.shortIds)
              && forall base :: Placed(m, base, |m.prefilled|) && Free(base) == |m.shortIds| ==>
                   Uncrowded(m.shortIds, base, crowded)
  {
    hide Describes, NoMisleading, Placed, Acceptable, Distinct, Free, Shown, Wants, PoolStopped, ExtraStopped, Uncrowded;
    var partial := new PartiallyDownloadedBlock();
    ghost var base, n, e;
    status, base, n, e := partial.InitData(m, sid, maxCount, crowded, pool, extra);
    vtx := [];
    if !status.Invalid? {
      OnlyBase(m, base);
    }
    if status.Ok? {
      KnownPrefix(sid, block, pool, extra, n, e);
      ShownIsRight(m, sid, block, base, pool[..n], extra[..e]);
      FilledIsBlock(partial.available, block);
      status, vtx := partial.FillBlock(Missing(block, partial.available), check);
    }
  }

  /** The message a node makes of a block: the first transaction in full, short ids for the rest. */
  function Announce(block: seq<Tx>, sid: Tx -> nat): Message
    requires block != []
  {
    Message(seq(|block| - 1, i requires 0 <= i < |block| - 1 => sid(block[i + 1])), [Prefilled(0, Some(block[0]))])
  }

  lemma AnnounceDescribes(block: seq<Tx>, sid: Tx -> nat)
    requires block != []
    ensures Describes(Announce(block, sid), sid, block) && Acceptable(Announce(block, sid))
  {
    var m := Announce(block, sid);
    assert Slot(m.prefilled, 0) == 0;
    forall base: seq<Option<Tx>>, k | Placed(m, base, 1) && 0 <= k < |base| && base[k].None?
      ensures Sent(m.shortIds, base, sid(block[k]), k)
    {
      FirstIsFilled(m, base, k);
      assert m.shortIds[k - 1] == sid(block[k]);
    }
  }

  lemma {:induction false} FirstIsFilled(m: Message, base: seq<Option<Tx>>, k: nat)
    requires |m.prefilled| == 1 && Slot(m.prefilled, 0) == 0 && Placed(m, base, 1) && m.prefilled[0].tx.Some?
    requires 0 < k <= |base|
    ensures Free(base[..k]) == k - 1
  {
    FreeNext(base, k - 1);
    if k > 1 {
      FirstIsFilled(m, base, k - 1);
      assert base[k - 1].None?;
    } else {
      assert base[..0] == [];
    }
  }
}
