/** How the writes of a run fall into rounds, one for each theft. In every interleaving of writes
    with the worker's thefts and dumps the entries handed out are those of the rounds, in order,
    and they add up to what was written. */
module Interleaving {
  import opened AccessModel
  import opened Json
  import opened Options
  import opened Report
  import opened ReportDecode

  /** `access_accounting_write`'s arguments and the outcome of decoding. */
  datatype Request = Request(pid: int, tid: int, decoded: Option<Decoded>)

  /** The entries that a list of writes leaves on an empty list. */
  function Written(store: bool, writes: seq<Request>): seq<Entry> {
    if writes == [] then []
    else
      var w := writes[|writes| - 1];
      AccessModel.Write(Written(store, writes[..|writes| - 1]), store, w.pid, w.tid, w.decoded)
  }

  lemma WrittenOne(store: bool, writes: seq<Request>, w: Request)
    ensures Written(store, []) == []
    ensures Written(store, writes + [w])
            == AccessModel.Write(Written(store, writes), store, w.pid, w.tid, w.decoded)
  {
    assert (writes + [w])[..|writes|] == writes;
  }

  /** The writes before each theft that took place, and those after the last one. */
  datatype Split = Split(rounds: seq<seq<Request>>, pending: seq<Request>)

  function SplitOf(store: bool, acts: seq<Action>): Split {
    if acts == [] then Split([], [])
    else
      var before, a := acts[..|acts| - 1], acts[|acts| - 1];
      var s, split := Exec(Initial(store), before), SplitOf(store, before);
      if s.stopped then split
      else
        match a
        case Account(pid, tid, decoded) => split.(pending := split.pending + [Request(pid, tid, decoded)])
        case Steal => if s.stolen == [] then Split(split.rounds + [split.pending], []) else split
        case _ => split
  }

  /** One more action of a run. */
  lemma OneMore(store: bool, acts: seq<Action>, a: Action)
    ensures Exec(Initial(store), acts + [a]) == Step(Exec(Initial(store), acts), a)
    ensures var s, split := Exec(Initial(store), acts), SplitOf(store, acts);
            SplitOf(store, acts + [a]).rounds
            == if a == Steal && !s.stopped && s.stolen == [] then split.rounds + [split.pending] else split.rounds
  {
    assert (acts + [a])[..|acts|] == acts;
  }

  /** The entries of all rounds, in order. */
  function Handed(store: bool, rounds: seq<seq<Request>>): seq<Entry> {
    if rounds == [] then []
    else Handed(store, rounds[..|rounds| - 1]) + Written(store, rounds[|rounds| - 1])
  }

  lemma HandedOne(store: bool, rounds: seq<seq<Request>>, writes: seq<Request>)
    ensures Handed(store, rounds + [writes]) == Handed(store, rounds) + Written(store, writes)
  {
    assert (rounds + [writes])[..|rounds|] == rounds;
  }

  /** At every point of every interleaving the entries printed or waiting to be printed are those
      of the rounds, in order, and the entries still listed, or discarded at shutdown, are those
      of the writes since the last theft. */
  lemma {:induction false} EveryInterleaving(store: bool, acts: seq<Action>)
    ensures var s, split := Exec(Initial(store), acts), SplitOf(store, acts);
            && s.store == store
            && s.dumped + s.stolen == Handed(store, split.rounds)
            && (if s.stopped then s.listed == [] && s.discarded == Written(store, split.pending)
                else s.discarded == [] && s.listed == Written(store, split.pending))
  {
    hide AccessModel.Write, Written;
    WrittenOne(store, [], Request(0, 0, None));
    if acts != [] {
      var before, a := acts[..|acts| - 1], acts[|acts| - 1];
      var s, split := Exec(Initial(store), before), SplitOf(store, before);
      EveryInterleaving(store, before);
      if !s.stopped {
        match a
        case Account(pid, tid, decoded) => WrittenOne(store, split.pending, Request(pid, tid, decoded));
        case Steal =>
          if s.stolen == [] {
            HandedOne(store, split.rounds, split.pending);
            assert s.dumped + [] == s.dumped;
          }
        case Dump =>
          if s.stolen != [] {
            assert s.dumped + s.stolen == (s.dumped + [s.stolen[0]]) + s.stolen[1..];
          }
        case Shutdown =>
      }
    }
  }

  // ----- Records -----

  /** What led to one record: the writes before its theft, and the time it is stamped with. */
  datatype Round = Round(writes: seq<Request>, now: nat)

  function WritesOf(rounds: seq<Round>): (writes: seq<seq<Request>>)
    ensures |writes| == |rounds| && forall i :: 0 <= i < |rounds| ==> writes[i] == rounds[i].writes
  {
    seq(|rounds|, i requires 0 <= i < |rounds| => rounds[i].writes)
  }

  /** The records of the rounds. */
  function RecordsOf(store: bool, rounds: seq<Round>): (records: seq<DumpRecord>)
    ensures |records| == |rounds|
    ensures forall i :: 0 <= i < |rounds| ==>
              records[i] == DumpRecord(rounds[i].now, Written(store, rounds[i].writes))
  {
    seq(|rounds|, i requires 0 <= i < |rounds| => DumpRecord(rounds[i].now, Written(store, rounds[i].writes)))
  }

  lemma RoundsOne(store: bool, rounds: seq<Round>, r: Round)
    ensures WritesOf(rounds + [r]) == WritesOf(rounds) + [r.writes]
    ensures RecordsOf(store, rounds + [r]) == RecordsOf(store, rounds) + [DumpRecord(r.now, Written(store, r.writes))]
  {
    hide Written;
  }

  /** The entries of all records, in order. */
  function EntriesIn(records: seq<DumpRecord>): seq<Entry> {
    if records == [] then []
    else EntriesIn(records[..|records| - 1]) + records[|records| - 1].processes
  }

  lemma EntriesInOne(records: seq<DumpRecord>, d: DumpRecord)
    ensures EntriesIn(records + [d]) == EntriesIn(records) + d.processes
  {
    assert (records + [d])[..|records|] == records;
  }

  /** The records hold exactly the entries of the rounds. */
  lemma {:induction false} PrintedIsHanded(store: bool, rounds: seq<Round>)
    ensures EntriesIn(RecordsOf(store, rounds)) == Handed(store, WritesOf(rounds))
  {
    hide Written;
    if rounds != [] {
      var n := |rounds| - 1;
      PrintedIsHanded(store, rounds[..n]);
      assert WritesOf(rounds)[..n] == WritesOf(rounds[..n]);
      assert RecordsOf(store, rounds)[..n] == RecordsOf(store, rounds[..n]);
    }
  }

  // ----- What the records add up to -----

  /** What a list of requests contributes to a query. */
  function RequestedFor(store: bool, writes: seq<Request>, q: Query, m: Measure): nat {
    if writes == [] then 0
    else
      var w := writes[|writes| - 1];
      RequestedFor(store, writes[..|writes| - 1], q, m)
      + if w.decoded.None? then 0 else Added(store, w.pid, w.tid, w.decoded.value, q, m)
  }

  function RoundsFor(store: bool, rounds: seq<seq<Request>>, q: Query, m: Measure): nat {
    if rounds == [] then 0
    else RoundsFor(store, rounds[..|rounds| - 1], q, m) + RequestedFor(store, rounds[|rounds| - 1], q, m)
  }

  lemma {:induction false} WrittenAddsUp(store: bool, writes: seq<Request>, q: Query, m: Measure)
    ensures EntriesFor(Written(store, writes), q, m) == RequestedFor(store, writes, q, m)
  {
    hide AccessModel.Write, Added;
    if writes != [] {
      var before, w := writes[..|writes| - 1], writes[|writes| - 1];
      WrittenAddsUp(store, before, q, m);
      WriteAdds(Written(store, before), store, w.pid, w.tid, w.decoded, q, m);
    }
  }

  lemma {:induction false} HandedAddsUp(store: bool, rounds: seq<seq<Request>>, q: Query, m: Measure)
    ensures EntriesFor(Handed(store, rounds), q, m) == RoundsFor(store, rounds, q, m)
  {
    hide Written, RequestedFor;
    if rounds != [] {
      var before, writes := rounds[..|rounds| - 1], rounds[|rounds| - 1];
      HandedAddsUp(store, before, q, m);
      WrittenAddsUp(store, writes, q, m);
      EntriesForConcat(Handed(store, before), Written(store, writes), q, m);
    }
  }

  /** For every process, thread and instruction, the printed records add up to the writes of the
      rounds they were printed in. */
  lemma PrintedAddsUp(store: bool, rounds: seq<Round>, q: Query, m: Measure)
    ensures EntriesFor(EntriesIn(RecordsOf(store, rounds)), q, m) == RoundsFor(store, WritesOf(rounds), q, m)
  {
    PrintedIsHanded(store, rounds);
    HandedAddsUp(store, WritesOf(rounds), q, m);
  }

  // ----- What the records are like -----

  predicate PlainRequests(writes: seq<Request>) {
    forall i :: 0 <= i < |writes| && writes[i].decoded.Some? ==> Plain(writes[i].decoded.value.insn)
  }

  /** No mnemonic needs an escape. */
  predicate PlainRounds(rounds: seq<Round>) {
    forall i :: 0 <= i < |rounds| ==> PlainRequests(rounds[i].writes)
  }

  lemma {:induction false} WrittenReadable(store: bool, writes: seq<Request>)
    requires PlainRequests(writes)
    ensures AllOk(Written(store, writes), store) && DistinctPids(Written(store, writes))
    ensures forall i :: 0 <= i < |Written(store, writes)| ==> PlainEntry(Written(store, writes)[i])
  {
    hide AccessModel.Write, Plain;
    if writes != [] {
      var before, w := writes[..|writes| - 1], writes[|writes| - 1];
      WrittenReadable(store, before);
      WriteOk(Written(store, before), store, w.pid, w.tid, w.decoded);
      WritePlain(Written(store, before), store, w.pid, w.tid, w.decoded);
    }
  }

  lemma RecordsReadable(store: bool, rounds: seq<Round>)
    requires PlainRounds(rounds)
    ensures PlainRecords(RecordsOf(store, rounds), store) && StoredRecords(RecordsOf(store, rounds), store)
  {
    hide Plain, PlainEntry, Written;
    forall i | 0 <= i < |rounds|
      ensures PlainRecord(RecordsOf(store, rounds)[i], store)
      ensures forall j :: 0 <= j < |RecordsOf(store, rounds)[i].processes| ==>
                Stored(RecordsOf(store, rounds)[i].processes[j], store)
    {
      var writes := rounds[i].writes;
      WrittenReadable(store, writes);
      forall j | 0 <= j < |Written(store, writes)|
        ensures Stored(Written(store, writes)[j], store)
      {
        assert EntryOk(Written(store, writes)[j], store);
      }
    }
  }

  lemma {:induction false} BumpPlain(rows: seq<Row<string>>, key: string, size: nat)
    requires forall i :: 0 <= i < |rows| ==> Plain(rows[i].key)
    ensures forall i :: 0 <= i < |rows| ==> Plain(Bump(rows, key, size)[i].key)
  {
    BumpKeys(rows, key, size);
  }

  lemma {:induction false} TrackPidPlain(entries: seq<Entry>, store: bool, pid: int, tid: int, d: Decoded)
    requires Plain(d.insn) && forall i :: 0 <= i < |entries| ==> PlainEntry(entries[i])
    ensures forall i :: 0 <= i < |entries| ==> PlainEntry(TrackPid(entries, store, pid, tid, d)[i])
  {
    hide Plain;
    if entries != [] {
      if entries[0].pid == pid {
        BumpPlain(entries[0].insns, d.insn, d.size);
      } else {
        TrackPidPlain(entries[1..], store, pid, tid, d);
      }
    }
  }

  lemma WritePlain(entries: seq<Entry>, store: bool, pid: int, tid: int, decoded: Option<Decoded>)
    requires decoded.Some? ==> Plain(decoded.value.insn)
    requires forall i :: 0 <= i < |entries| ==> PlainEntry(entries[i])
    ensures var w := AccessModel.Write(entries, store, pid, tid, decoded);
            forall i :: 0 <= i < |w| ==> PlainEntry(w[i])
  {
    hide Plain;
    var e := Ensure(entries, pid);
    assert forall i :: 0 <= i < |e| ==> PlainEntry(e[i]);
    if decoded.Some? {
      TrackPidPlain(e, store, pid, tid, decoded.value);
    }
  }
}
