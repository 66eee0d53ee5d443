/** The worker thread: stealing the shared list, printing it and freeing it, while writers go on
    accounting whenever they get the lock. Everything that happens is a run of `AccessModel`, and
    what is printed is `Report`'s text of the rounds of that run. */
module AccessWorker {
  import opened Access
  import opened AccessModel
  import opened Decimal
  import opened Interleaving
  import opened IntrusiveList
  import opened Json
  import opened Options
  import opened Report

  // ----- One entry -----

  lemma CommasStep(texts: seq<string>, k: nat)
    requires k < |texts|
    ensures Commas(texts[k..]) == texts[k] + (if k + 1 < |texts| then "," else "") + Commas(texts[k + 1..])
  {
    assert texts[k..][1..] == texts[k + 1..];
  }

  lemma CommasEnds(texts: seq<string>)
    ensures texts[0..] == texts && texts[|texts|..] == [] && Commas([]) == ""
  {
  }

  /** The loop over the threads. */
  method PrintThreads(rows: List<Row<int>>) returns (text: string)
    requires rows.Valid()
    ensures text == Commas(ThreadTexts(rows.Items()))
  {
    hide Ring, ItemsOf, Commas, ThreadText;
    ghost var texts := ThreadTexts(rows.Items());
    text := "";
    CommasEnds(texts);
    rows.AtIs(0);
    var current := rows.head.next;
    ghost var k: nat := 0;
    while current != rows.head
      invariant k <= |rows.nodes| && current == At(rows.head, rows.nodes, k)
      invariant text + Commas(texts[k..]) == Commas(texts)
      decreases |rows.nodes| - k
    {
      rows.AtIs(k + 1);
      CommasStep(texts, k);
      var next := current.next;
      text := text + ThreadText(current.item);
      if next != rows.head {
        text := text + ",";
      }
      current := next;
      k := k + 1;
    }
    rows.AtIs(k);
  }

  /** The loop over the instructions. */
  method PrintInsns(rows: List<Row<string>>) returns (text: string)
    requires rows.Valid()
    ensures text == Commas(InsnTexts(rows.Items()))
  {
    hide Ring, ItemsOf, Commas, InsnText;
    ghost var texts := InsnTexts(rows.Items());
    text := "";
    CommasEnds(texts);
    rows.AtIs(0);
    var current := rows.head.next;
    ghost var k: nat := 0;
    while current != rows.head
      invariant k <= |rows.nodes| && current == At(rows.head, rows.nodes, k)
      invariant text + Commas(texts[k..]) == Commas(texts)
      decreases |rows.nodes| - k
    {
      rows.AtIs(k + 1);
      CommasStep(texts, k);
      var next := current.next;
      text := text + InsnText(current.item);
      if next != rows.head {
        text := text + ",";
      }
      current := next;
      k := k + 1;
    }
    rows.AtIs(k);
  }

  /** `access_worker_dump_entry` */
  method DumpEntry(entry: AccessEntry, store: bool) returns (text: string)
    requires entry.Valid()
    ensures text == EntryText(entry.Value(), store)
  {
    hide Ring, ItemsOf, Commas, ThreadTexts, InsnTexts, Field;
    var rows;
    text := "{" + Field("pid", Int(entry.pid)) + ", " + Field("written_total", Dec(entry.bytes))
            + ", " + Field("access_write_total", Dec(entry.accesses));
    if store {
      rows := PrintInsns(entry.insns);
      text := text + (", " + Field("written_per_instruction", "[" + rows + "]"));
    }
    rows := PrintThreads(entry.tids);
    text := text + ", " + Field("written_per_thread", "[" + rows + "]");
    text := text + "}";
  }

  // ----- One iteration -----

  lemma TextsOf(entries: seq<Entry>, store: bool, k: nat)
    requires k < |entries|
    ensures EntryTexts(entries, store)[k] == EntryText(entries[k], store)
    ensures entries[k..][0] == entries[k] && entries[k..][1..] == entries[k + 1..]
  {
  }

  /** The shared list is where the run `acts` has brought it, with `stolen` at the worker and
      `dumped` printed. */
  ghost predicate Tracks(shared: EntryList, store: bool, acts: seq<Action>, stolen: seq<Entry>, dumped: seq<Entry>)
    reads shared, shared.repr
  {
    shared.Valid() && Exec(Initial(store), acts) == State(store, shared.values, stolen, dumped, [], false)
  }

  lemma TracksValid(shared: EntryList, store: bool, acts: seq<Action>, stolen: seq<Entry>, dumped: seq<Entry>)
    requires Tracks(shared, store, acts, stolen, dumped)
    ensures shared.Valid()
  {
  }

  /** Whatever the writers do while the worker does not hold the lock. */
  method Writers(shared: EntryList, store: bool, ghost acts: seq<Action>, ghost stolen: seq<Entry>,
      ghost dumped: seq<Entry>)
    returns (ghost more: seq<Action>)
    requires Tracks(shared, store, acts, stolen, dumped)
    modifies shared.repr
    ensures Tracks(shared, store, more, stolen, dumped) && fresh(shared.repr - old(shared.repr))
    ensures SplitOf(store, more).rounds == SplitOf(store, acts).rounds
  {
    hide EntryList.Valid, Exec, SplitOf, AccessModel.Write;
    more := acts;
    ghost var footprint := shared.repr;
    var attempts: nat := *;
    while attempts > 0
      invariant Tracks(shared, store, more, stolen, dumped) && fresh(shared.repr - footprint)
      invariant SplitOf(store, more).rounds == SplitOf(store, acts).rounds
    {
      var pid: int, tid: int, decoded: Option<Decoded> := *, *, *;
      OneMore(store, more, Account(pid, tid, decoded));
      var ok := shared.Write(store, pid, tid, decoded);
      more := more + [Account(pid, tid, decoded)];
      attempts := attempts - 1;
    }
  }

  /** The loop that prints, unlinks and frees the stolen entries, one at a time. */
  method Drain(entries: EntryList, shared: EntryList, store: bool, ghost acts: seq<Action>, ghost dumped: seq<Entry>)
    returns (text: string, ghost more: seq<Action>)
    requires entries.Valid() && Tracks(shared, store, acts, entries.values, dumped) && entries.repr !! shared.repr
    modifies entries.repr, shared.repr
    ensures entries.Valid() && entries.values == []
    ensures Tracks(shared, store, more, [], dumped + old(entries.values)) && fresh(shared.repr - old(shared.repr))
    ensures SplitOf(store, more).rounds == SplitOf(store, acts).rounds
    ensures text == Commas(EntryTexts(old(entries.values), store))
  {
    hide *;
    ghost var all, footprint, others := entries.values, entries.repr, shared.repr;
    ghost var texts := EntryTexts(all, store);
    ghost var k: nat := 0;
    CommasEnds(texts);
    DrainEnds(all, dumped);
    text, more := "", acts;
    entries.FirstIs();
    var current := entries.list.head.next;
    while current != entries.list.head
      invariant entries.Valid() && entries.repr == footprint && fresh(shared.repr - others) && footprint !! shared.repr
      invariant k <= |all| && entries.values == all[k..]
      invariant Tracks(shared, store, more, entries.values, dumped + all[..k])
      invariant SplitOf(store, more).rounds == SplitOf(store, acts).rounds
      invariant text + Commas(texts[k..]) == Commas(texts)
      invariant current == entries.list.head.next
      decreases |all| - k
    {
      entries.Parts();
      entries.FirstIs();
      more := Writers(shared, store, more, entries.values, dumped + all[..k]);
      TracksValid(shared, store, more, entries.values, dumped + all[..k]);
      entries.FirstIs();
      TextsOf(all, store, k);
      CommasStep(texts, k);
      DumpOne(shared, store, more, all, k, dumped);
      var next := current.next;
      var printed := DumpEntry(current.item, store);
      text := text + printed;
      entries.Free(current);
      if next != entries.list.head {
        text := text + ",";
      }
      more := more + [Dump];
      entries.FirstIs();
      current := next;
      k := k + 1;
    }
    entries.FirstIs();
  }

  lemma DrainEnds(all: seq<Entry>, dumped: seq<Entry>)
    ensures all[0..] == all && dumped + all[..0] == dumped && all[|all|..] == [] && all[..|all|] == all
  {
  }

  lemma DumpOne(shared: EntryList, store: bool, acts: seq<Action>, all: seq<Entry>, k: nat, dumped: seq<Entry>)
    requires k < |all| && Tracks(shared, store, acts, all[k..], dumped + all[..k])
    ensures Tracks(shared, store, acts + [Dump], all[k + 1..], dumped + all[..k + 1])
    ensures SplitOf(store, acts + [Dump]).rounds == SplitOf(store, acts).rounds
  {
    hide EntryList.Valid, Exec, SplitOf;
    OneMore(store, acts, Dump);
    assert all[k..][1..] == all[k + 1..];
    assert dumped + all[..k] + [all[k..][0]] == dumped + all[..k + 1];
  }

  /** The teardown loop of `access_accounting_deinit`: whatever is still listed is freed without
      being printed. */
  method Discard(shared: EntryList, store: bool, ghost acts: seq<Action>, ghost dumped: seq<Entry>)
    requires Tracks(shared, store, acts, [], dumped)
    modifies shared.repr
    ensures shared.Valid() && shared.values == []
    ensures Exec(Initial(store), acts + [Shutdown]) == State(store, [], [], dumped, old(shared.values), true)
    ensures SplitOf(store, acts + [Shutdown]) == SplitOf(store, acts)
  {
    hide *;
    ShutdownIs(shared, store, acts, dumped);
    ghost var all, footprint := shared.values, shared.repr;
    ghost var k: nat := 0;
    DrainEnds(all, []);
    shared.FirstIs();
    var current := shared.list.head.next;
    while current != shared.list.head
      invariant shared.Valid() && shared.repr == footprint
      invariant k <= |all| && shared.values == all[k..]
      invariant current == shared.list.head.next
      decreases |all| - k
    {
      shared.FirstIs();
      var next := current.next;
      shared.Free(current);
      shared.FirstIs();
      current := next;
      k := k + 1;
    }
    shared.FirstIs();
  }

  lemma ShutdownIs(shared: EntryList, store: bool, acts: seq<Action>, dumped: seq<Entry>)
    requires Tracks(shared, store, acts, [], dumped)
    ensures shared.Valid()
    ensures Exec(Initial(store), acts + [Shutdown]) == State(store, [], [], dumped, shared.values, true)
    ensures SplitOf(store, acts + [Shutdown]) == SplitOf(store, acts)
  {
    hide EntryList.Valid;
    assert (acts + [Shutdown])[..|acts|] == acts;
  }

  /** `access_worker_iteration`: takes everything that is listed under the lock, prints it as one
      record and frees it, with writers accounting before the theft, between the printed entries and
      until the next iteration. The clock gives the record's stamp. */
  method Iteration(shared: EntryList, store: bool, first: bool, ghost acts: seq<Action>, ghost dumped: seq<Entry>)
    returns (text: string, ghost more: seq<Action>, ghost round: Round)
    requires Tracks(shared, store, acts, [], dumped)
    modifies shared.repr
    ensures Tracks(shared, store, more, [], dumped + Written(store, round.writes))
            && fresh(shared.repr - old(shared.repr))
    ensures SplitOf(store, more).rounds == SplitOf(store, acts).rounds + [round.writes]
    ensures text == (if first then "" else ",")
            + (RecordText(DumpRecord(round.now, Written(store, round.writes)), store) + "\n")
  {
    hide *;
    more := Writers(shared, store, acts, [], dumped);
    TracksValid(shared, store, more, [], dumped);
    shared.Parts();
    var entries := new EntryList();
    entries.Parts();
    StealIs(shared, store, more, dumped);
    ghost var writes := SplitOf(store, more).pending;
    entries.Steal(shared);
    more := more + [Steal];
    var now: nat := *;
    round := Round(writes, now);
    text := (if first then "" else ",") + "{" + Field("timestamp", Quoted(Dec(now))) + ", " + Field("processes", "[");
    Stolen(shared, store, more, Written(store, writes), dumped);
    var printed;
    printed, more := Drain(entries, shared, store, more, dumped);
    text := text + printed;
    text := text + "]}\n";
    more := Writers(shared, store, more, [], dumped + Written(store, writes));
    RecordRegroup(Written(store, writes), store, first, now, printed);
  }

  /** What the theft finds, and what it makes of the run. */
  lemma StealIs(shared: EntryList, store: bool, acts: seq<Action>, dumped: seq<Entry>)
    requires Tracks(shared, store, acts, [], dumped)
    ensures var split := SplitOf(store, acts);
            && shared.values == Written(store, split.pending)
            && Exec(Initial(store), acts + [Steal])
               == State(store, [], Written(store, split.pending), dumped, [], false)
            && SplitOf(store, acts + [Steal]).rounds == split.rounds + [split.pending]
  {
    hide EntryList.Valid, Exec, SplitOf, Written;
    EveryInterleaving(store, acts);
    OneMore(store, acts, Steal);
  }

  lemma Stolen(shared: EntryList, store: bool, acts: seq<Action>, stolen: seq<Entry>, dumped: seq<Entry>)
    requires shared.Valid() && shared.values == []
    requires Exec(Initial(store), acts) == State(store, [], stolen, dumped, [], false)
    ensures Tracks(shared, store, acts, stolen, dumped)
  {
  }

  /** The pieces of a record's text, as they are printed. */
  lemma RecordRegroup(entries: seq<Entry>, store: bool, first: bool, now: nat, printed: string)
    requires printed == Commas(EntryTexts(entries, store))
    ensures (if first then "" else ",") + "{" + Field("timestamp", Quoted(Dec(now))) + ", " + Field("processes", "[")
            + printed + "]}\n"
            == (if first then "" else ",") + (RecordText(DumpRecord(now, entries), store) + "\n")
  {
    hide Dec, Commas, EntryTexts, Quoted;
    FieldSplit("processes", printed);
    var comma := if first then "" else ",";
    var stamp, processes := Field("timestamp", Quoted(Dec(now))), Field("processes", "[");
    Regroup(comma, stamp, processes, printed);
    assert RecordText(DumpRecord(now, entries), store)
           == "{" + (stamp + ", " + Field("processes", "[" + printed + "]")) + "}";
  }

  lemma FieldSplit(name: string, items: string)
    ensures Field(name, "[" + items + "]") == Field(name, "[") + items + "]"
  {
    hide Quoted;
  }

  lemma Regroup(comma: string, stamp: string, processes: string, printed: string)
    ensures comma + "{" + stamp + ", " + processes + printed + "]}\n"
            == comma + ("{" + (stamp + ", " + (processes + printed + "]")) + "}" + "\n")
  {
  }

  // ----- The whole worker -----

  /** `access_worker` over any number of iterations, with writers all the time: the records are
      those of the rounds of the run. */
  method Worker(shared: EntryList, store: bool, iterations: nat)
    returns (text: string, ghost acts: seq<Action>, ghost rounds: seq<Round>)
    requires shared.Valid() && shared.values == []
    modifies shared.repr
    ensures Tracks(shared, store, acts, [], EntriesIn(RecordsOf(store, rounds)))
            && fresh(shared.repr - old(shared.repr))
    ensures |rounds| == iterations && WritesOf(rounds) == SplitOf(store, acts).rounds
    ensures text == WorkerText(RecordsOf(store, rounds), store)
  {
    hide *;
    text := "[\n";
    acts, rounds := [], [];
    ghost var footprint := shared.repr;
    WorkerStart(shared, store);
    var first := true;
    for i := 0 to iterations
      invariant fresh(shared.repr - footprint) && |rounds| == i && first == (i == 0)
      invariant Tracks(shared, store, acts, [], EntriesIn(RecordsOf(store, rounds)))
      invariant WritesOf(rounds) == SplitOf(store, acts).rounds
      invariant text == "[\n" + RecordsText(RecordsOf(store, rounds), store, true)
    {
      ghost var round;
      var record;
      record, acts, round := Iteration(shared, store, first, acts, EntriesIn(RecordsOf(store, rounds)));
      text := text + record;
      WorkerRound(store, rounds, round);
      rounds := rounds + [round];
      if first {
        first := false;
      }
    }
    text := text + "]\n";
    WorkerEnd(RecordsOf(store, rounds), store);
  }

  lemma WorkerStart(shared: EntryList, store: bool)
    requires shared.Valid() && shared.values == []
    ensures Tracks(shared, store, [], [], EntriesIn(RecordsOf(store, [])))
    ensures WritesOf([]) == SplitOf(store, []).rounds
    ensures "[\n" == "[\n" + RecordsText(RecordsOf(store, []), store, true)
  {
  }

  /** One more record. */
  lemma WorkerRound(store: bool, rounds: seq<Round>, round: Round)
    ensures var records, d := RecordsOf(store, rounds), DumpRecord(round.now, Written(store, round.writes));
            && RecordsOf(store, rounds + [round]) == records + [d]
            && WritesOf(rounds + [round]) == WritesOf(rounds) + [round.writes]
            && EntriesIn(records + [d]) == EntriesIn(records) + d.processes
            && "[\n" + RecordsText(records, store, true)
               + ((if rounds == [] then "" else ",") + (RecordText(d, store) + "\n"))
               == "[\n" + RecordsText(records + [d], store, true)
  {
    hide RecordText, Written, RecordsText;
    var records, d := RecordsOf(store, rounds), DumpRecord(round.now, Written(store, round.writes));
    RoundsOne(store, rounds, round);
    EntriesInOne(records, d);
    RecordsTextOne(records, store, true, d);
  }

  lemma {:induction false} RecordsTextOne(ds: seq<DumpRecord>, store: bool, first: bool, d: DumpRecord)
    ensures RecordsText(ds + [d], store, first)
            == RecordsText(ds, store, first) + ((if first && ds == [] then "" else ",") + (RecordText(d, store) + "\n"))
  {
    hide RecordText;
    if ds == [] {
      assert [] + [d] == [d] && [d][1..] == [];
      assert RecordsText([], store, false) == "";
    } else {
      RecordsTextOne(ds[1..], store, false, d);
      assert (ds + [d])[1..] == ds[1..] + [d];
    }
  }

  lemma WorkerEnd(records: seq<DumpRecord>, store: bool)
    ensures "[\n" + RecordsText(records, store, true) + "]\n" == WorkerText(records, store)
  {
  }
}
