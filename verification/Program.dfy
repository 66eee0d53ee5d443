/** The program's output from start to shutdown: the settings, the worker's records, the debug
    suffix, and what a reader of that output can rely on. */
module Program {
  import opened Access
  import opened AccessModel
  import opened AccessWorker
  import opened Decimal
  import opened Interleaving
  import opened Json
  import opened Options
  import opened Report
  import opened ReportDecode

  /** What `main` and the worker write to standard output, with writers accounting until the
      entries are torn down. Entries still listed when the worker stops are discarded. */
  method Output(settings: Settings, store: bool, iterations: nat, debug: Debug)
    returns (text: string, ghost acts: seq<Action>, ghost rounds: seq<Round>)
    ensures text == DocumentText(Document(settings, RecordsOf(store, rounds), debug), store)
    ensures |rounds| == iterations && Finished(store, acts, rounds)
  {
    hide SettingsText, DebugText, WorkerText, Field, RecordsOf, EntryList.Valid, Exec, SplitOf, Written, EntriesIn;
    text := "{" + Field("settings", SettingsText(settings)) + ", " + Field("records", "\n");
    var shared := new EntryList();
    var records;
    records, acts, rounds := Worker(shared, store, iterations);
    text := text + records;
    acts := Writers(shared, store, acts, [], EntriesIn(RecordsOf(store, rounds)));
    EveryInterleaving(store, acts);
    Discard(shared, store, acts, EntriesIn(RecordsOf(store, rounds)));
    acts := acts + [Shutdown];
    text := text + (", " + Field("debug", DebugText(debug)) + "}\n");
  }

  /** A run that has come to its end: every record's entries are printed, those of the writes after
      the last theft are discarded. */
  ghost predicate Finished(store: bool, acts: seq<Action>, rounds: seq<Round>) {
    && WritesOf(rounds) == SplitOf(store, acts).rounds
    && Exec(Initial(store), acts)
       == State(store, [], [], EntriesIn(RecordsOf(store, rounds)), Written(store, SplitOf(store, acts).pending), true)
  }

  /** Whatever is accounted and however often it is dumped, the whole output is a JSON text that
      reads back as exactly the settings, the dumped records and the debug figures, if and only
      if neither CPU list needs escaping. */
  lemma OutputReadsBack(settings: Settings, store: bool, rounds: seq<Round>, debug: Debug)
    requires PlainRounds(rounds)
    ensures var doc := Document(settings, RecordsOf(store, rounds), debug);
            ReadReport(DocumentText(doc, store), store) == Some(doc)
            <==> Plain(settings.generalCpus) && Plain(settings.nvmmCpus)
  {
    hide PlainRecords, StoredRecords;
    RecordsReadable(store, rounds);
    RoundTripExactly(Document(settings, RecordsOf(store, rounds), debug), store);
  }

  /** For every process, thread and instruction: what was printed and what was discarded add up to
      all writes of the run that were tracked. */
  lemma OutputAccounts(store: bool, acts: seq<Action>, rounds: seq<Round>, q: Query, m: Measure)
    requires Finished(store, acts, rounds)
    ensures EntriesFor(EntriesIn(RecordsOf(store, rounds)), q, m)
            + EntriesFor(Written(store, SplitOf(store, acts).pending), q, m)
            == WrittenFor(Initial(store), acts, q, m)
  {
    hide Written, EntriesIn, SplitOf, Exec, WrittenFor;
    Conservation(store, acts, q, m);
    EverywhereFor(Exec(Initial(store), acts), q, m);
  }
}
