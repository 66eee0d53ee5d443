/** From a JSON value back to the report it stands for, and the round trip: when exactly what the
    program prints reads back as the dumped records. */
module ReportDecode {
  import opened Options
  import opened AccessModel
  import opened Decimal
  import opened Json
  import opened Report

  function AsNum(j: Json): Option<int> {
    if j.Num? then Some(j.n) else None
  }

  function AsNat(j: Json): Option<nat> {
    if j.Num? && j.n >= 0 then Some(j.n) else None
  }

  function AsStr(j: Json): Option<string> {
    if j.Str? then Some(j.s) else None
  }

  /** The value of member `i` of an object with `n` members, if it has the expected name. */
  function At(j: Json, n: nat, i: nat, key: string): Option<Json> {
    if j.Obj? && |j.members| == n && i < n && j.members[i].key == key then Some(j.members[i].value) else None
  }

  function Collect<T>(js: seq<Json>, decode: Json -> Option<T>): Option<seq<T>> {
    if js == [] then Some([])
    else
      var first := decode(js[0]);
      var rest := Collect(js[1..], decode);
      if first.None? || rest.None? then None else Some([first.value] + rest.value)
  }

  function CollectAt<T>(j: Json, n: nat, i: nat, key: string, decode: Json -> Option<T>): Option<seq<T>> {
    var a := At(j, n, i, key);
    if a.None? || !a.value.Arr? then None else Collect(a.value.items, decode)
  }

  function NatAt(j: Json, n: nat, i: nat, key: string): Option<nat> {
    var a := At(j, n, i, key);
    if a.None? then None else AsNat(a.value)
  }

  function IntAt(j: Json, n: nat, i: nat, key: string): Option<int> {
    var a := At(j, n, i, key);
    if a.None? then None else AsNum(a.value)
  }

  function StrAt(j: Json, n: nat, i: nat, key: string): Option<string> {
    var a := At(j, n, i, key);
    if a.None? then None else AsStr(a.value)
  }

  function ThreadOf(j: Json): Option<Row<int>> {
    var tid, bytes, accesses :=
      IntAt(j, 3, 0, "tid"), NatAt(j, 3, 1, "written_total"), NatAt(j, 3, 2, "access_write_total");
    if tid.None? || bytes.None? || accesses.None? then None else Some(Row(tid.value, bytes.value, accesses.value))
  }

  function InsnOf(j: Json): Option<Row<string>> {
    var insn, bytes, accesses :=
      StrAt(j, 3, 0, "instruction"), NatAt(j, 3, 1, "written_total"), NatAt(j, 3, 2, "access_write_total");
    if insn.None? || bytes.None? || accesses.None? then None else Some(Row(insn.value, bytes.value, accesses.value))
  }

  function EntryOf(j: Json, store: bool): Option<Entry> {
    var n := if store then 5 else 4;
    var pid, bytes, accesses :=
      IntAt(j, n, 0, "pid"), NatAt(j, n, 1, "written_total"), NatAt(j, n, 2, "access_write_total");
    var insns := if store then CollectAt(j, n, 3, "written_per_instruction", InsnOf) else Some([]);
    var tids := CollectAt(j, n, n - 1, "written_per_thread", ThreadOf);
    if pid.None? || bytes.None? || accesses.None? || insns.None? || tids.None? then None
    else Some(Entry(pid.value, bytes.value, accesses.value, insns.value, tids.value))
  }

  /** The timestamp is a number in a string, printed as the program prints numbers. */
  function RecordOf(j: Json, store: bool): Option<DumpRecord> {
    var timestamp := StrAt(j, 2, 0, "timestamp");
    var processes := CollectAt(j, 2, 1, "processes", e => EntryOf(e, store));
    if timestamp.None? || !AllDigits(timestamp.value) || processes.None? then None
    else if Dec(DecValue(timestamp.value)) != timestamp.value then None
    else Some(DumpRecord(DecValue(timestamp.value), processes.value))
  }

  function SettingsOf(j: Json): Option<Settings> {
    var period, general, nvmm :=
      IntAt(j, 3, 0, "sample_period"), StrAt(j, 3, 1, "general_cpuid_list"), StrAt(j, 3, 2, "nvmm_cpuid_list");
    if period.None? || general.None? || nvmm.None? then None
    else Some(Settings(period.value, general.value, nvmm.value))
  }

  function DebugOf(j: Json): Option<Debug> {
    var sampler, access := NatAt(j, 2, 0, "sampler_cputime_ms"), NatAt(j, 2, 1, "access_cputime_ms");
    if sampler.None? || access.None? then None else Some(Debug(sampler.value, access.value))
  }

  function DocumentOf(j: Json, store: bool): Option<Document> {
    var s, d := At(j, 3, 0, "settings"), At(j, 3, 2, "debug");
    var records := CollectAt(j, 3, 1, "records", r => RecordOf(r, store));
    if s.None? || d.None? || records.None? then None
    else
      var settings, debug := SettingsOf(s.value), DebugOf(d.value);
      if settings.None? || debug.None? then None
      else Some(Document(settings.value, records.value, debug.value))
  }

  // ----- Decoding undoes encoding -----

  lemma {:induction false} CollectIs<T>(js: seq<Json>, decode: Json -> Option<T>, xs: seq<T>)
    requires |js| == |xs| && forall i :: 0 <= i < |js| ==> decode(js[i]) == Some(xs[i])
    ensures Collect(js, decode) == Some(xs)
  {
    if js != [] {
      CollectIs(js[1..], decode, xs[1..]);
      assert xs == [xs[0]] + xs[1..];
    }
  }

  /** The builds without per-instruction counters leave that list empty. */
  predicate Stored(e: Entry, store: bool) {
    store || e.insns == []
  }

  lemma ThreadBack(row: Row<int>)
    ensures ThreadOf(ThreadJson(row)) == Some(row)
  {
  }

  lemma InsnBack(row: Row<string>)
    ensures InsnOf(InsnJson(row)) == Some(row)
  {
  }

  lemma EntryBack(e: Entry, store: bool)
    requires Stored(e, store)
    ensures EntryOf(EntryJson(e, store), store) == Some(e)
  {
    hide ThreadJson, InsnJson, ThreadOf, InsnOf, Collect;
    forall i | 0 <= i < |e.tids|
      ensures ThreadOf(ThreadJsons(e.tids)[i]) == Some(e.tids[i])
    {
      ThreadBack(e.tids[i]);
    }
    CollectIs(ThreadJsons(e.tids), ThreadOf, e.tids);
    forall i | 0 <= i < |e.insns|
      ensures InsnOf(InsnJsons(e.insns)[i]) == Some(e.insns[i])
    {
      InsnBack(e.insns[i]);
    }
    CollectIs(InsnJsons(e.insns), InsnOf, e.insns);
  }

  lemma RecordBack(d: DumpRecord, store: bool)
    requires forall j :: 0 <= j < |d.processes| ==> Stored(d.processes[j], store)
    ensures RecordOf(RecordJson(d, store), store) == Some(d)
  {
    hide EntryJson, EntryOf, Collect;
    DecIs(d.timestamp);
    var decode := e => EntryOf(e, store);
    forall j | 0 <= j < |d.processes|
      ensures decode(EntryJsons(d.processes, store)[j]) == Some(d.processes[j])
    {
      EntryBack(d.processes[j], store);
    }
    CollectIs(EntryJsons(d.processes, store), decode, d.processes);
  }

  predicate StoredRecords(ds: seq<DumpRecord>, store: bool) {
    forall i, j :: 0 <= i < |ds| && 0 <= j < |ds[i].processes| ==> Stored(ds[i].processes[j], store)
  }

  lemma DocumentBack(doc: Document, store: bool)
    requires StoredRecords(doc.records, store)
    ensures DocumentOf(DocumentJson(doc, store), store) == Some(doc)
  {
    hide RecordJson, RecordOf, Collect, Stored;
    var decode := r => RecordOf(r, store);
    forall i | 0 <= i < |doc.records|
      ensures decode(RecordJsons(doc.records, store)[i]) == Some(doc.records[i])
    {
      RecordBack(doc.records[i], store);
    }
    CollectIs(RecordJsons(doc.records, store), decode, doc.records);
  }

  /** Reads a report. */
  function ReadReport(text: string, store: bool): Option<Document> {
    match Read(text)
    case None => None
    case Some(j) => DocumentOf(j, store)
  }

  // ----- Only the encoding of a report is decoded into it -----

  lemma {:induction false} Collected<T>(js: seq<Json>, decode: Json -> Option<T>)
    ensures var xs := Collect(js, decode);
            xs.Some? ==> |xs.value| == |js| && forall i :: 0 <= i < |js| ==> decode(js[i]) == Some(xs.value[i])
  {
    if js != [] {
      Collected(js[1..], decode);
    }
  }

  lemma ThreadEncoded(j: Json)
    ensures ThreadOf(j).Some? ==> j == ThreadJson(ThreadOf(j).value)
  {
    if ThreadOf(j).Some? {
      assert j.members == [j.members[0], j.members[1], j.members[2]];
    }
  }

  lemma InsnEncoded(j: Json)
    ensures InsnOf(j).Some? ==> j == InsnJson(InsnOf(j).value)
  {
    if InsnOf(j).Some? {
      assert j.members == [j.members[0], j.members[1], j.members[2]];
    }
  }

  lemma EntryEncoded(j: Json, store: bool)
    requires EntryOf(j, store).Some?
    ensures j == EntryJson(EntryOf(j, store).value, store) && Stored(EntryOf(j, store).value, store)
  {
    hide ThreadJson, InsnJson, ThreadOf, InsnOf, Collect;
    var e, ms := EntryOf(j, store).value, j.members;
    var tids := ms[|ms| - 1].value.items;
    Collected(tids, ThreadOf);
    forall i | 0 <= i < |tids|
      ensures tids[i] == ThreadJsons(e.tids)[i]
    {
      ThreadEncoded(tids[i]);
    }
    assert tids == ThreadJsons(e.tids);
    if store {
      var insns := ms[3].value.items;
      Collected(insns, InsnOf);
      forall i | 0 <= i < |insns|
        ensures insns[i] == InsnJsons(e.insns)[i]
      {
        InsnEncoded(insns[i]);
      }
      assert insns == InsnJsons(e.insns);
      assert ms == [ms[0], ms[1], ms[2]] + [ms[3]] + [ms[4]];
    } else {
      assert ms == [ms[0], ms[1], ms[2]] + [] + [ms[3]];
    }
  }

  lemma RecordEncoded(j: Json, store: bool)
    requires RecordOf(j, store).Some?
    ensures j == RecordJson(RecordOf(j, store).value, store)
    ensures forall i :: 0 <= i < |RecordOf(j, store).value.processes| ==>
            Stored(RecordOf(j, store).value.processes[i], store)
  {
    hide EntryJson, EntryOf, Collect, Stored, Dec, DecValue;
    var d, items, decode := RecordOf(j, store).value, j.members[1].value.items, e => EntryOf(e, store);
    Collected(items, decode);
    forall i | 0 <= i < |items|
      ensures items[i] == EntryJsons(d.processes, store)[i] && Stored(d.processes[i], store)
    {
      assert decode(items[i]) == Some(d.processes[i]);
      EntryEncoded(items[i], store);
    }
    assert items == EntryJsons(d.processes, store);
    assert j.members == [j.members[0], j.members[1]];
  }

  lemma SettingsEncoded(j: Json)
    ensures SettingsOf(j).Some? ==> j == SettingsJson(SettingsOf(j).value)
  {
    if SettingsOf(j).Some? {
      assert j.members == [j.members[0], j.members[1], j.members[2]];
    }
  }

  lemma DebugEncoded(j: Json)
    ensures DebugOf(j).Some? ==> j == DebugJson(DebugOf(j).value)
  {
    if DebugOf(j).Some? {
      assert j.members == [j.members[0], j.members[1]];
    }
  }

  lemma DocumentEncoded(j: Json, store: bool)
    requires DocumentOf(j, store).Some?
    ensures j == DocumentJson(DocumentOf(j, store).value, store)
    ensures StoredRecords(DocumentOf(j, store).value.records, store)
  {
    hide RecordJson, RecordOf, Collect, Stored, SettingsOf, DebugOf, SettingsJson, DebugJson;
    var doc, items, decode := DocumentOf(j, store).value, j.members[1].value.items, r => RecordOf(r, store);
    Collected(items, decode);
    forall i | 0 <= i < |items|
      ensures items[i] == RecordJsons(doc.records, store)[i]
      ensures forall k :: 0 <= k < |doc.records[i].processes| ==> Stored(doc.records[i].processes[k], store)
    {
      assert decode(items[i]) == Some(doc.records[i]);
      RecordEncoded(items[i], store);
    }
    assert items == RecordJsons(doc.records, store);
    SettingsEncoded(j.members[0].value);
    DebugEncoded(j.members[2].value);
    assert j.members == [j.members[0], j.members[1], j.members[2]];
  }

  /** For any number of records, processes, threads and instructions: the printed report is a JSON
      text that reads back as exactly what was dumped, if and only if no CPU list and no printed
      mnemonic needs an escape and a build without the instruction list has none to lose. */
  lemma RoundTripExactly(doc: Document, store: bool)
    ensures ReadReport(DocumentText(doc, store), store) == Some(doc)
            <==> PlainDocument(doc, store) && StoredRecords(doc.records, store)
  {
    hide Read, DocumentText, DocumentOf, DocumentJson, PlainDocument, StoredRecords;
    var text := DocumentText(doc, store);
    ReadDocument(doc, store);
    if ReadReport(text, store) == Some(doc) {
      DocumentEncoded(Read(text).value, store);
    }
    if PlainDocument(doc, store) && StoredRecords(doc.records, store) {
      DocumentBack(doc, store);
    }
  }
}
