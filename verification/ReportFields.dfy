/** The report as its readers see it: which number, text or list stands under which key. */
module ReportFields {
  import opened AccessModel
  import opened Decimal
  import opened Json
  import opened Options
  import opened Report

  /** The value of the only member of that name. */
  function Get(j: Json, key: string): Option<Json> {
    if !j.Obj? then None else Named(j.members, key)
  }

  function Named(members: seq<Member>, key: string): Option<Json> {
    if members == [] then None
    else if members[0].key == key then
      if Named(members[1..], key).None? then Some(members[0].value) else None
    else Named(members[1..], key)
  }

  /** The list under the key. */
  function List(j: Json, key: string): Option<seq<Json>> {
    match Get(j, key)
    case Some(Arr(items)) => Some(items)
    case _ => None
  }

  ghost predicate Totals(j: Json, bytes: nat, accesses: nat) {
    Get(j, "written_total") == Some(Num(bytes)) && Get(j, "access_write_total") == Some(Num(accesses))
  }

  ghost predicate ThreadFields(j: Json, row: Row<int>) {
    Get(j, "tid") == Some(Num(row.key)) && Totals(j, row.bytes, row.accesses)
  }

  ghost predicate InsnFields(j: Json, row: Row<string>) {
    Get(j, "instruction") == Some(Str(row.key)) && Totals(j, row.bytes, row.accesses)
  }

  ghost predicate EntryFields(j: Json, e: Entry, store: bool) {
    var insns, tids := List(j, "written_per_instruction"), List(j, "written_per_thread");
    && Get(j, "pid") == Some(Num(e.pid)) && Totals(j, e.bytes, e.accesses)
    && tids.Some? && |tids.value| == |e.tids|
    && (forall i :: 0 <= i < |e.tids| ==> ThreadFields(tids.value[i], e.tids[i]))
    && (insns.Some? <==> store)
    && (store ==> |insns.value| == |e.insns|
                  && forall i :: 0 <= i < |e.insns| ==> InsnFields(insns.value[i], e.insns[i]))
  }

  /** The timestamp is a text, of digits. */
  ghost predicate RecordFields(j: Json, d: DumpRecord, store: bool) {
    var processes := List(j, "processes");
    && (exists t :: Get(j, "timestamp") == Some(Str(t)) && AllDigits(t) && DecValue(t) == d.timestamp)
    && processes.Some? && |processes.value| == |d.processes|
    && forall i :: 0 <= i < |d.processes| ==> EntryFields(processes.value[i], d.processes[i], store)
  }

  ghost predicate SettingsFields(j: Option<Json>, s: Settings) {
    && j.Some? && Get(j.value, "sample_period") == Some(Num(s.samplePeriod))
    && Get(j.value, "general_cpuid_list") == Some(Str(s.generalCpus))
    && Get(j.value, "nvmm_cpuid_list") == Some(Str(s.nvmmCpus))
  }

  ghost predicate DebugFields(j: Option<Json>, d: Debug) {
    && j.Some? && Get(j.value, "sampler_cputime_ms") == Some(Num(d.samplerMs))
    && Get(j.value, "access_cputime_ms") == Some(Num(d.accessMs))
  }

  ghost predicate DocumentFields(j: Json, doc: Document, store: bool) {
    var records := List(j, "records");
    && SettingsFields(Get(j, "settings"), doc.settings) && DebugFields(Get(j, "debug"), doc.debug)
    && records.Some? && |records.value| == |doc.records|
    && forall i :: 0 <= i < |doc.records| ==> RecordFields(records.value[i], doc.records[i], store)
  }

  lemma {:induction false} NamedAt(members: seq<Member>, i: nat)
    requires i < |members| && forall k :: 0 <= k < |members| && k != i ==> members[k].key != members[i].key
    ensures Get(Obj(members), members[i].key) == Some(members[i].value)
  {
    if i == 0 {
      NamedNowhere(members[1..], members[0].key);
    } else {
      NamedAt(members[1..], i - 1);
    }
  }

  lemma {:induction false} NamedNowhere(members: seq<Member>, key: string)
    requires forall k :: 0 <= k < |members| ==> members[k].key != key
    ensures Get(Obj(members), key) == None
  {
    if members != [] {
      NamedNowhere(members[1..], key);
    }
  }

  lemma ThreadNamed(row: Row<int>)
    ensures ThreadFields(ThreadJson(row), row)
  {
    hide Get;
    var ms := ThreadJson(row).members;
    NamedAt(ms, 0);
    NamedAt(ms, 1);
    NamedAt(ms, 2);
  }

  lemma InsnNamed(row: Row<string>)
    ensures InsnFields(InsnJson(row), row)
  {
    hide Get;
    var ms := InsnJson(row).members;
    NamedAt(ms, 0);
    NamedAt(ms, 1);
    NamedAt(ms, 2);
  }

  lemma EntryNamed(e: Entry, store: bool)
    ensures EntryFields(EntryJson(e, store), e, store)
  {
    hide Get, ThreadFields, InsnFields, ThreadJson, InsnJson;
    var ms := EntryJson(e, store).members;
    var n := |ms|;
    assert n == if store then 5 else 4;
    NamedAt(ms, 0);
    NamedAt(ms, 1);
    NamedAt(ms, 2);
    NamedAt(ms, n - 1);
    if store {
      NamedAt(ms, 3);
    } else {
      NamedNowhere(ms, "written_per_instruction");
    }
    forall k | 0 <= k < |e.tids|
      ensures ThreadFields(ThreadJsons(e.tids)[k], e.tids[k])
    {
      ThreadNamed(e.tids[k]);
    }
    forall k | 0 <= k < |e.insns|
      ensures InsnFields(InsnJsons(e.insns)[k], e.insns[k])
    {
      InsnNamed(e.insns[k]);
    }
  }

  lemma RecordNamed(d: DumpRecord, store: bool)
    ensures RecordFields(RecordJson(d, store), d, store)
  {
    hide Get, EntryFields, EntryJson;
    var ms := RecordJson(d, store).members;
    NamedAt(ms, 0);
    NamedAt(ms, 1);
    DecIs(d.timestamp);
    forall k | 0 <= k < |d.processes|
      ensures EntryFields(EntryJsons(d.processes, store)[k], d.processes[k], store)
    {
      EntryNamed(d.processes[k], store);
    }
  }

  lemma SettingsNamed(s: Settings)
    ensures SettingsFields(Some(SettingsJson(s)), s)
  {
    hide Get;
    var ms := SettingsJson(s).members;
    NamedAt(ms, 0);
    NamedAt(ms, 1);
    NamedAt(ms, 2);
  }

  lemma DebugNamed(d: Debug)
    ensures DebugFields(Some(DebugJson(d)), d)
  {
    hide Get;
    var ms := DebugJson(d).members;
    NamedAt(ms, 0);
    NamedAt(ms, 1);
  }

  lemma DocumentNamed(doc: Document, store: bool)
    ensures DocumentFields(DocumentJson(doc, store), doc, store)
  {
    hide Get, RecordFields, RecordJson, SettingsFields, SettingsJson, DebugFields, DebugJson;
    var ms := DocumentJson(doc, store).members;
    NamedAt(ms, 0);
    NamedAt(ms, 1);
    NamedAt(ms, 2);
    SettingsNamed(doc.settings);
    DebugNamed(doc.debug);
    forall k | 0 <= k < |doc.records|
      ensures RecordFields(RecordJsons(doc.records, store)[k], doc.records[k], store)
    {
      RecordNamed(doc.records[k], store);
    }
  }

  /** Every plain report reads back with each of its numbers, texts and lists under its own key. */
  lemma ReportByKey(doc: Document, store: bool)
    requires PlainDocument(doc, store)
    ensures Read(DocumentText(doc, store)).Some? && DocumentFields(Read(DocumentText(doc, store)).value, doc, store)
  {
    hide Read, DocumentText, DocumentJson, DocumentFields, PlainDocument;
    ReadDocument(doc, store);
    DocumentNamed(doc, store);
  }
}
