/** Write accounting with a concurrent dumper, over plain values: what a write does to the
    listed entries, and what is conserved over every interleaving of writes and dumps. */
module AccessModel {

  import opened Options

  /** `access_entry_thread` and `access_entry_insn`. */
  datatype Row<K> = Row(key: K, bytes: nat, accesses: nat)

  /** `access_entry` with its two lists. */
  datatype Entry = Entry(pid: int, bytes: nat, accesses: nat, insns: seq<Row<string>>, tids: seq<Row<int>>)

  /** What decoding the writing instruction yields. */
  datatype Decoded = Decoded(insn: string, size: nat)

  // ----- One write -----

  predicate HasKey<K(==)>(rows: seq<Row<K>>, key: K) {
    exists i :: 0 <= i < |rows| && rows[i].key == key
  }

  /** Counts one access on the first row with the key. */
  function Bump<K(==)>(rows: seq<Row<K>>, key: K, size: nat): (r: seq<Row<K>>)
    ensures |r| == |rows|
  {
    if rows == [] then []
    else if rows[0].key == key then
      [Row(key, rows[0].bytes + size, rows[0].accesses + 1)] + rows[1..]
    else [rows[0]] + Bump(rows[1..], key, size)
  }

  /** Find or insert at the front, then count. */
  function Track<K(==)>(rows: seq<Row<K>>, key: K, size: nat): seq<Row<K>> {
    if HasKey(rows, key) then Bump(rows, key, size) else [Row(key, size, 1)] + rows
  }

  function TrackWrite(e: Entry, store: bool, tid: int, d: Decoded): Entry {
    e.(bytes := e.bytes + d.size,
       accesses := e.accesses + 1,
       insns := if store then Track(e.insns, d.insn, d.size) else e.insns,
       tids := Track(e.tids, tid, d.size))
  }

  predicate HasPid(entries: seq<Entry>, pid: int) {
    exists i :: 0 <= i < |entries| && entries[i].pid == pid
  }

  /** Counts a write on the first entry of the process. */
  function TrackPid(entries: seq<Entry>, store: bool, pid: int, tid: int, d: Decoded): (r: seq<Entry>)
    ensures |r| == |entries|
  {
    if entries == [] then []
    else if entries[0].pid == pid then [TrackWrite(entries[0], store, tid, d)] + entries[1..]
    else [entries[0]] + TrackPid(entries[1..], store, pid, tid, d)
  }

  function Ensure(entries: seq<Entry>, pid: int): seq<Entry> {
    if HasPid(entries, pid) then entries else entries + [Entry(pid, 0, 0, [], [])]
  }

  /** `access_accounting_write`. The entry is there even if the instruction cannot be decoded. */
  function Write(entries: seq<Entry>, store: bool, pid: int, tid: int, decoded: Option<Decoded>): seq<Entry> {
    match decoded
    case None => Ensure(entries, pid)
    case Some(d) => TrackPid(Ensure(entries, pid), store, pid, tid, d)
  }

  // ----- Where a write is counted -----

  lemma {:induction false} BumpAt<K>(rows: seq<Row<K>>, key: K, size: nat, k: nat)
    requires k < |rows| && rows[k].key == key && forall i :: 0 <= i < k ==> rows[i].key != key
    ensures Track(rows, key, size) == rows[k := Row(key, rows[k].bytes + size, rows[k].accesses + 1)]
  {
    assert HasKey(rows, key);
    BumpIs(rows, key, size, k);
  }

  lemma {:induction false} BumpIs<K>(rows: seq<Row<K>>, key: K, size: nat, k: nat)
    requires k < |rows| && rows[k].key == key && forall i :: 0 <= i < k ==> rows[i].key != key
    ensures Bump(rows, key, size) == rows[k := Row(key, rows[k].bytes + size, rows[k].accesses + 1)]
  {
    if k > 0 {
      BumpIs(rows[1..], key, size, k - 1);
    }
  }

  lemma {:induction false} TrackPidAt(entries: seq<Entry>, store: bool, pid: int, tid: int, d: Decoded, k: nat)
    requires k < |entries| && entries[k].pid == pid && forall i :: 0 <= i < k ==> entries[i].pid != pid
    ensures TrackPid(entries, store, pid, tid, d) == entries[k := TrackWrite(entries[k], store, tid, d)]
  {
    if k > 0 {
      TrackPidAt(entries[1..], store, pid, tid, d, k - 1);
    }
  }

  // ----- Amounts -----

  datatype Measure = Bytes | Accesses

  /** What one may ask of the dumps: how much a process, one of its threads or one of its
      instructions has written. */
  datatype Query = OfProcess(pid: int) | OfThread(pid: int, tid: int) | OfInsn(pid: int, insn: string)

  function Pick(m: Measure, bytes: nat, accesses: nat): nat {
    if m.Bytes? then bytes else accesses
  }

  function RowsFor<K(==)>(rows: seq<Row<K>>, key: K, m: Measure): nat {
    if rows == [] then 0
    else (if rows[0].key == key then Pick(m, rows[0].bytes, rows[0].accesses) else 0) + RowsFor(rows[1..], key, m)
  }

  function RowsTotal<K>(rows: seq<Row<K>>, m: Measure): nat {
    if rows == [] then 0
    else Pick(m, rows[0].bytes, rows[0].accesses) + RowsTotal(rows[1..], m)
  }

  function EntryFor(e: Entry, q: Query, m: Measure): nat {
    if e.pid != q.pid then 0
    else
      match q
      case OfProcess(_) => Pick(m, e.bytes, e.accesses)
      case OfThread(_, tid) => RowsFor(e.tids, tid, m)
      case OfInsn(_, insn) => RowsFor(e.insns, insn, m)
  }

  function EntriesFor(entries: seq<Entry>, q: Query, m: Measure): nat {
    if entries == [] then 0
    else EntryFor(entries[0], q, m) + EntriesFor(entries[1..], q, m)
  }

  // ----- Runs -----

  datatype Action =
    | Account(pid: int, tid: int, decoded: Option<Decoded>)
    | Steal
    | Dump
    | Shutdown

  /** `listed` is the shared list, `stolen` the worker's local one, `dumped` what has been
      printed, `discarded` what was still listed at shutdown. */
  datatype State = State(
    store: bool,
    listed: seq<Entry>,
    stolen: seq<Entry>,
    dumped: seq<Entry>,
    discarded: seq<Entry>,
    stopped: bool)

  function Initial(store: bool): State {
    State(store, [], [], [], [], false)
  }

  /** Writes and thefts hold the lock, so each is one step; the worker prints its local list one
      entry at a time while writes go on, and steals again only when it is empty. */
  function Step(s: State, a: Action): State {
    if s.stopped then s
    else
      match a
      case Account(pid, tid, decoded) => s.(listed := Write(s.listed, s.store, pid, tid, decoded))
      case Steal => if s.stolen == [] then s.(stolen := s.listed, listed := []) else s
      case Dump => if s.stolen == [] then s else s.(dumped := s.dumped + [s.stolen[0]], stolen := s.stolen[1..])
      case Shutdown => if s.stolen == [] then s.(discarded := s.listed, listed := [], stopped := true) else s
  }

  function Exec(s: State, acts: seq<Action>): State {
    if acts == [] then s else Step(Exec(s, acts[..|acts| - 1]), acts[|acts| - 1])
  }

  /** What a write of process `pid` contributes to a query. */
  function Added(store: bool, pid: int, tid: int, d: Decoded, q: Query, m: Measure): nat {
    if pid != q.pid then 0
    else
      match q
      case OfProcess(_) => Pick(m, d.size, 1)
      case OfThread(_, t) => if t == tid then Pick(m, d.size, 1) else 0
      case OfInsn(_, i) => if store && i == d.insn then Pick(m, d.size, 1) else 0
  }

  /** Only a write whose instruction was decoded is tracked. */
  function ActionFor(s: State, a: Action, q: Query, m: Measure): nat {
    if s.stopped || !a.Account? || a.decoded.None? then 0
    else Added(s.store, a.pid, a.tid, a.decoded.value, q, m)
  }

  /** The sum over all successfully tracked writes of a run. */
  function WrittenFor(s: State, acts: seq<Action>, q: Query, m: Measure): nat {
    if acts == [] then 0
    else WrittenFor(s, acts[..|acts| - 1], q, m) + ActionFor(Exec(s, acts[..|acts| - 1]), acts[|acts| - 1], q, m)
  }

  /** Everything the accounting still holds or has handed out. */
  function Everywhere(s: State): seq<Entry> {
    s.dumped + s.stolen + s.listed + s.discarded
  }

  // ----- Conservation -----

  lemma HasKeyRest<K>(rows: seq<Row<K>>, key: K)
    requires HasKey(rows, key) && rows[0].key != key
    ensures HasKey(rows[1..], key)
  {
    var i :| 0 <= i < |rows| && rows[i].key == key;
    assert rows[1..][i - 1].key == key;
  }

  lemma {:induction false} RowsForBump<K>(rows: seq<Row<K>>, key: K, size: nat, k: K, m: Measure)
    requires HasKey(rows, key)
    ensures RowsFor(Bump(rows, key, size), k, m) == RowsFor(rows, k, m) + if k == key then Pick(m, size, 1) else 0
  {
    var r := Bump(rows, key, size);
    if rows[0].key == key {
      assert r[1..] == rows[1..];
    } else {
      HasKeyRest(rows, key);
      RowsForBump(rows[1..], key, size, k, m);
      assert r[1..] == Bump(rows[1..], key, size);
    }
  }

  lemma RowsForTrack<K>(rows: seq<Row<K>>, key: K, size: nat, k: K, m: Measure)
    ensures RowsFor(Track(rows, key, size), k, m) == RowsFor(rows, k, m) + if k == key then Pick(m, size, 1) else 0
  {
    if HasKey(rows, key) {
      RowsForBump(rows, key, size, k, m);
    } else {
      assert ([Row(key, size, 1)] + rows)[1..] == rows;
    }
  }

  lemma {:induction false} EntriesForConcat(a: seq<Entry>, b: seq<Entry>, q: Query, m: Measure)
    ensures EntriesFor(a + b, q, m) == EntriesFor(a, q, m) + EntriesFor(b, q, m)
  {
    hide EntryFor;
    if a == [] {
      assert a + b == b;
    } else {
      EntriesForConcat(a[1..], b, q, m);
      assert (a + b)[1..] == a[1..] + b;
    }
  }

  lemma HasPidRest(entries: seq<Entry>, pid: int)
    requires HasPid(entries, pid) && entries[0].pid != pid
    ensures HasPid(entries[1..], pid)
  {
    var i :| 0 <= i < |entries| && entries[i].pid == pid;
    assert entries[1..][i - 1].pid == pid;
  }

  lemma TrackWriteAdds(e: Entry, store: bool, tid: int, d: Decoded, q: Query, m: Measure)
    ensures EntryFor(TrackWrite(e, store, tid, d), q, m) == EntryFor(e, q, m) + Added(store, e.pid, tid, d, q, m)
  {
    hide Track, RowsFor;
    match q
    case OfProcess(_) =>
    case OfThread(_, t) => RowsForTrack(e.tids, tid, d.size, t, m);
    case OfInsn(_, i) => RowsForTrack(e.insns, d.insn, d.size, i, m);
  }

  lemma {:induction false} TrackPidAdds(entries: seq<Entry>, store: bool, pid: int, tid: int, d: Decoded, q: Query,
      m: Measure)
    requires HasPid(entries, pid)
    ensures EntriesFor(TrackPid(entries, store, pid, tid, d), q, m)
            == EntriesFor(entries, q, m) + Added(store, pid, tid, d, q, m)
  {
    hide EntryFor, TrackWrite, Added;
    var r := TrackPid(entries, store, pid, tid, d);
    if entries[0].pid == pid {
      TrackWriteAdds(entries[0], store, tid, d, q, m);
      assert r[1..] == entries[1..];
    } else {
      HasPidRest(entries, pid);
      TrackPidAdds(entries[1..], store, pid, tid, d, q, m);
      assert r[1..] == TrackPid(entries[1..], store, pid, tid, d);
    }
  }

  lemma EnsureAdds(entries: seq<Entry>, pid: int, q: Query, m: Measure)
    ensures HasPid(Ensure(entries, pid), pid)
    ensures EntriesFor(Ensure(entries, pid), q, m) == EntriesFor(entries, q, m)
  {
    if !HasPid(entries, pid) {
      var e := Entry(pid, 0, 0, [], []);
      assert Ensure(entries, pid)[|entries|].pid == pid;
      EntriesForConcat(entries, [e], q, m);
      assert EntriesFor([e], q, m) == EntryFor(e, q, m);
    }
  }

  lemma WriteAdds(entries: seq<Entry>, store: bool, pid: int, tid: int, decoded: Option<Decoded>, q: Query, m: Measure)
    ensures EntriesFor(Write(entries, store, pid, tid, decoded), q, m)
            == EntriesFor(entries, q, m) + if decoded.None? then 0 else Added(store, pid, tid, decoded.value, q, m)
  {
    hide EntriesFor, TrackPid, Ensure, Added;
    EnsureAdds(entries, pid, q, m);
    if decoded.Some? {
      TrackPidAdds(Ensure(entries, pid), store, pid, tid, decoded.value, q, m);
    }
  }

  lemma EverywhereFor(s: State, q: Query, m: Measure)
    ensures EntriesFor(Everywhere(s), q, m)
            == EntriesFor(s.dumped, q, m) + EntriesFor(s.stolen, q, m) + EntriesFor(s.listed, q, m)
              + EntriesFor(s.discarded, q, m)
  {
    hide EntriesFor;
    EntriesForConcat(s.dumped + s.stolen + s.listed, s.discarded, q, m);
    EntriesForConcat(s.dumped + s.stolen, s.listed, q, m);
    EntriesForConcat(s.dumped, s.stolen, q, m);
  }

  lemma StepConserves(s: State, a: Action, q: Query, m: Measure)
    requires s.discarded == [] || s.stopped
    ensures EntriesFor(Everywhere(Step(s, a)), q, m) == EntriesFor(Everywhere(s), q, m) + ActionFor(s, a, q, m)
  {
    hide EntryFor, Write, Added, Everywhere;
    EverywhereFor(s, q, m);
    EverywhereFor(Step(s, a), q, m);
    if !s.stopped {
      match a
      case Account(pid, tid, decoded) => WriteAdds(s.listed, s.store, pid, tid, decoded, q, m);
      case Dump =>
        if s.stolen != [] {
          EntriesForConcat(s.dumped, [s.stolen[0]], q, m);
          EntriesForConcat([s.stolen[0]], s.stolen[1..], q, m);
          assert s.stolen == [s.stolen[0]] + s.stolen[1..];
        }
      case _ =>
    }
  }

  lemma {:induction false} DiscardedAtEnd(s: State, acts: seq<Action>)
    requires s.discarded == []
    ensures Exec(s, acts).discarded == [] || Exec(s, acts).stopped
  {
    if acts != [] {
      DiscardedAtEnd(s, acts[..|acts| - 1]);
    }
  }

  /** Over every interleaving of writes, thefts and dumps, for every process, thread and
      instruction: what has been dumped, what the worker still has to print, what is still listed
      and what was discarded at shutdown add up to all successfully tracked writes. */
  lemma {:induction false} Conservation(store: bool, acts: seq<Action>, q: Query, m: Measure)
    ensures EntriesFor(Everywhere(Exec(Initial(store), acts)), q, m) == WrittenFor(Initial(store), acts, q, m)
  {
    if acts != [] {
      var before := acts[..|acts| - 1];
      Conservation(store, before, q, m);
      DiscardedAtEnd(Initial(store), before);
      StepConserves(Exec(Initial(store), before), acts[|acts| - 1], q, m);
    }
  }

  // ----- Well-formed entries -----

  ghost predicate DistinctKeys<K>(rows: seq<Row<K>>) {
    forall i, j :: 0 <= i < j < |rows| ==> rows[i].key != rows[j].key
  }

  /** A thread or instruction occurs once, and the totals are the sums over the lists. */
  ghost predicate EntryOk(e: Entry, store: bool) {
    && DistinctKeys(e.tids) && DistinctKeys(e.insns)
    && (forall m :: RowsTotal(e.tids, m) == Pick(m, e.bytes, e.accesses))
    && (store ==> forall m :: RowsTotal(e.insns, m) == Pick(m, e.bytes, e.accesses))
    && (!store ==> e.insns == [])
  }

  ghost predicate AllOk(entries: seq<Entry>, store: bool) {
    forall i :: 0 <= i < |entries| ==> EntryOk(entries[i], store)
  }

  ghost predicate DistinctPids(entries: seq<Entry>) {
    forall i, j :: 0 <= i < j < |entries| ==> entries[i].pid != entries[j].pid
  }

  lemma {:induction false} BumpKeys<K>(rows: seq<Row<K>>, key: K, size: nat)
    ensures forall i :: 0 <= i < |rows| ==> Bump(rows, key, size)[i].key == rows[i].key
  {
    if rows != [] && rows[0].key != key {
      BumpKeys(rows[1..], key, size);
    }
  }

  lemma {:induction false} BumpTotal<K>(rows: seq<Row<K>>, key: K, size: nat, m: Measure)
    requires HasKey(rows, key)
    ensures RowsTotal(Bump(rows, key, size), m) == RowsTotal(rows, m) + Pick(m, size, 1)
  {
    var r := Bump(rows, key, size);
    if rows[0].key == key {
      assert r[1..] == rows[1..];
    } else {
      HasKeyRest(rows, key);
      BumpTotal(rows[1..], key, size, m);
      assert r[1..] == Bump(rows[1..], key, size);
    }
  }

  lemma TrackOk<K>(rows: seq<Row<K>>, key: K, size: nat)
    requires DistinctKeys(rows)
    ensures DistinctKeys(Track(rows, key, size))
    ensures forall m :: RowsTotal(Track(rows, key, size), m) == RowsTotal(rows, m) + Pick(m, size, 1)
  {
    if HasKey(rows, key) {
      BumpKeys(rows, key, size);
      forall m: Measure
        ensures RowsTotal(Track(rows, key, size), m) == RowsTotal(rows, m) + Pick(m, size, 1)
      {
        BumpTotal(rows, key, size, m);
      }
    } else {
      assert ([Row(key, size, 1)] + rows)[1..] == rows;
    }
  }

  lemma {:induction false} TrackPidOk(entries: seq<Entry>, store: bool, pid: int, tid: int, d: Decoded)
    requires AllOk(entries, store)
    ensures AllOk(TrackPid(entries, store, pid, tid, d), store)
    ensures forall i :: 0 <= i < |entries| ==> TrackPid(entries, store, pid, tid, d)[i].pid == entries[i].pid
  {
    if entries != [] {
      if entries[0].pid == pid {
        TrackOk(entries[0].tids, tid, d.size);
        TrackOk(entries[0].insns, d.insn, d.size);
      } else {
        TrackPidOk(entries[1..], store, pid, tid, d);
      }
    }
  }

  lemma WriteOk(entries: seq<Entry>, store: bool, pid: int, tid: int, decoded: Option<Decoded>)
    requires AllOk(entries, store) && DistinctPids(entries)
    ensures var w := Write(entries, store, pid, tid, decoded); AllOk(w, store) && DistinctPids(w)
  {
    var e := Ensure(entries, pid);
    assert AllOk(e, store) && DistinctPids(e);
    if decoded.Some? {
      TrackPidOk(e, store, pid, tid, decoded.value);
    }
  }

  ghost predicate StateOk(s: State) {
    && AllOk(s.dumped, s.store) && AllOk(s.stolen, s.store) && AllOk(s.listed, s.store) && AllOk(s.discarded, s.store)
    && DistinctPids(s.listed) && DistinctPids(s.stolen)
  }

  lemma StepOk(s: State, a: Action)
    requires StateOk(s)
    ensures StateOk(Step(s, a)) && Step(s, a).store == s.store
  {
    hide Write, EntryOk;
    if a.Account? {
      WriteOk(s.listed, s.store, a.pid, a.tid, a.decoded);
    }
  }

  /** In every reachable state every entry, wherever it is, has totals equal to the sums over its
      lists, and no process occurs twice on the shared list or in one dump. */
  lemma {:induction false} EntriesStayOk(store: bool, acts: seq<Action>)
    ensures var s := Exec(Initial(store), acts);
            s.store == store && AllOk(Everywhere(s), store) && DistinctPids(s.listed) && DistinctPids(s.stolen)
  {
    hide Exec, EntryOk, DistinctPids;
    StaysOk(store, acts);
  }

  lemma {:induction false} StaysOk(store: bool, acts: seq<Action>)
    ensures Exec(Initial(store), acts).store == store && StateOk(Exec(Initial(store), acts))
  {
    hide StateOk, Step;
    if acts == [] {
      InitialOk(store);
    } else {
      StaysOk(store, acts[..|acts| - 1]);
      StepOk(Exec(Initial(store), acts[..|acts| - 1]), acts[|acts| - 1]);
    }
  }

  lemma InitialOk(store: bool)
    ensures StateOk(Initial(store))
  {
  }
}
