/** The report on standard output: the text the program prints, from the settings to the debug
    suffix, and the proof that it is a JSON text that reads back as exactly what was dumped. */
module Report {
  import opened Options
  import opened AccessModel
  import opened Decimal
  import opened Json

  datatype Settings = Settings(samplePeriod: int, generalCpus: string, nvmmCpus: string)

  /** One iteration of the worker. */
  datatype DumpRecord = DumpRecord(timestamp: nat, processes: seq<Entry>)

  datatype Debug = Debug(samplerMs: nat, accessMs: nat)

  datatype Document = Document(settings: Settings, records: seq<DumpRecord>, debug: Debug)

  // ----- The text -----

  function Field(name: string, value: string): string {
    Quoted(name) + ": " + value
  }

  /** Elements with commas between them. */
  function Commas(texts: seq<string>): string {
    if texts == [] then ""
    else if |texts| == 1 then texts[0]
    else texts[0] + "," + Commas(texts[1..])
  }

  function ThreadText(row: Row<int>): string {
    "{" + (Field("tid", Int(row.key)) + ", " +
           (Field("written_total", Dec(row.bytes)) + ", " + Field("access_write_total", Dec(row.accesses)))) + "}"
  }

  function InsnText(row: Row<string>): string {
    "{" + (Field("instruction", Quoted(row.key)) + ", " +
           (Field("written_total", Dec(row.bytes)) + ", " + Field("access_write_total", Dec(row.accesses)))) + "}"
  }

  function ThreadTexts(rows: seq<Row<int>>): (texts: seq<string>)
    ensures |texts| == |rows|
  {
    seq(|rows|, i requires 0 <= i < |rows| => ThreadText(rows[i]))
  }

  function InsnTexts(rows: seq<Row<string>>): (texts: seq<string>)
    ensures |texts| == |rows|
  {
    seq(|rows|, i requires 0 <= i < |rows| => InsnText(rows[i]))
  }

  function TotalsText(e: Entry): string {
    Field("pid", Int(e.pid)) + ", " + Field("written_total", Dec(e.bytes)) + ", "
      + Field("access_write_total", Dec(e.accesses))
  }

  /** `access_worker_dump_entry`; the instructions are there only if they are stored. */
  function EntryText(e: Entry, store: bool): string {
    "{" + TotalsText(e)
    + (if store then ", " + Field("written_per_instruction", "[" + Commas(InsnTexts(e.insns)) + "]") else "")
    + ", " + Field("written_per_thread", "[" + Commas(ThreadTexts(e.tids)) + "]")
    + "}"
  }

  function EntryTexts(entries: seq<Entry>, store: bool): (texts: seq<string>)
    ensures |texts| == |entries|
  {
    seq(|entries|, i requires 0 <= i < |entries| => EntryText(entries[i], store))
  }

  /** `access_worker_iteration`, without the comma between records. */
  function RecordText(d: DumpRecord, store: bool): string {
    "{" + (Field("timestamp", Quoted(Dec(d.timestamp))) + ", "
           + Field("processes", "[" + Commas(EntryTexts(d.processes, store)) + "]")) + "}"
  }

  /** The records one after the other; only the first has no comma in front. */
  function RecordsText(ds: seq<DumpRecord>, store: bool, first: bool): string {
    if ds == [] then ""
    else (if first then "" else ",") + (RecordText(ds[0], store) + "\n") + RecordsText(ds[1..], store, false)
  }

  /** `access_worker` */
  function WorkerText(ds: seq<DumpRecord>, store: bool): string {
    "[\n" + RecordsText(ds, store, true) + "]\n"
  }

  function SettingsText(s: Settings): string {
    "{" + (Field("sample_period", Int(s.samplePeriod)) + ", " +
           (Field("general_cpuid_list", Quoted(s.generalCpus)) + ", "
             + Field("nvmm_cpuid_list", Quoted(s.nvmmCpus)))) + "}"
  }

  function DebugText(d: Debug): string {
    "{" + (Field("sampler_cputime_ms", Dec(d.samplerMs)) + ", " + Field("access_cputime_ms", Dec(d.accessMs))) + "}"
  }

  /** Everything `main` prints, with the worker's output in the middle. */
  function DocumentText(doc: Document, store: bool): string {
    "{" + Field("settings", SettingsText(doc.settings)) + ", " + Field("records", "\n")
    + WorkerText(doc.records, store)
    + ", " + Field("debug", DebugText(doc.debug)) + "}\n"
  }

  // ----- The values -----

  function ThreadJson(row: Row<int>): Json {
    Obj([Member("tid", Num(row.key)), Member("written_total", Num(row.bytes)),
      Member("access_write_total", Num(row.accesses))])
  }

  function InsnJson(row: Row<string>): Json {
    Obj([Member("instruction", Str(row.key)), Member("written_total", Num(row.bytes)),
      Member("access_write_total", Num(row.accesses))])
  }

  function ThreadJsons(rows: seq<Row<int>>): (js: seq<Json>)
    ensures |js| == |rows|
  {
    seq(|rows|, i requires 0 <= i < |rows| => ThreadJson(rows[i]))
  }

  function InsnJsons(rows: seq<Row<string>>): (js: seq<Json>)
    ensures |js| == |rows|
  {
    seq(|rows|, i requires 0 <= i < |rows| => InsnJson(rows[i]))
  }

  function EntryJson(e: Entry, store: bool): Json {
    Obj([Member("pid", Num(e.pid)), Member("written_total", Num(e.bytes)),
      Member("access_write_total", Num(e.accesses))]
        + (if store then [Member("written_per_instruction", Arr(InsnJsons(e.insns)))] else [])
        + [Member("written_per_thread", Arr(ThreadJsons(e.tids)))])
  }

  function EntryJsons(entries: seq<Entry>, store: bool): (js: seq<Json>)
    ensures |js| == |entries|
  {
    seq(|entries|, i requires 0 <= i < |entries| => EntryJson(entries[i], store))
  }

  function RecordJson(d: DumpRecord, store: bool): Json {
    Obj([Member("timestamp", Str(Dec(d.timestamp))), Member("processes", Arr(EntryJsons(d.processes, store)))])
  }

  function RecordJsons(ds: seq<DumpRecord>, store: bool): (js: seq<Json>)
    ensures |js| == |ds|
  {
    seq(|ds|, i requires 0 <= i < |ds| => RecordJson(ds[i], store))
  }

  function SettingsJson(s: Settings): Json {
    Obj([Member("sample_period", Num(s.samplePeriod)),
         Member("general_cpuid_list", Str(s.generalCpus)), Member("nvmm_cpuid_list", Str(s.nvmmCpus))])
  }

  function DebugJson(d: Debug): Json {
    Obj([Member("sampler_cputime_ms", Num(d.samplerMs)), Member("access_cputime_ms", Num(d.accessMs))])
  }

  function DocumentJson(doc: Document, store: bool): Json {
    Obj([Member("settings", SettingsJson(doc.settings)),
         Member("records", Arr(RecordJsons(doc.records, store))),
         Member("debug", DebugJson(doc.debug))])
  }

  // ----- Each part of the text is the printed value -----

  lemma PrintCons(m: Member, rest: seq<Member>)
    requires rest != []
    ensures PrintMembers([m] + rest) == PrintMember(m) + ", " + PrintMembers(rest)
  {
    assert ([m] + rest)[1..] == rest;
  }

  lemma PrintTwo(a: Member, b: Member)
    ensures PrintMembers([a, b]) == PrintMember(a) + ", " + PrintMember(b)
  {
    hide PrintMember;
    PrintCons(a, [b]);
    assert [a, b] == [a] + [b] && PrintMembers([b]) == PrintMember(b);
  }

  lemma PrintThree(a: Member, b: Member, c: Member)
    ensures PrintMembers([a, b, c]) == PrintMember(a) + ", " + (PrintMember(b) + ", " + PrintMember(c))
  {
    hide PrintMember, PrintMembers;
    PrintTwo(b, c);
    PrintCons(a, [b, c]);
    assert [a, b, c] == [a] + [b, c];
  }

  lemma ObjPrinted(members: seq<Member>)
    ensures Print(Obj(members)) == "{" + PrintMembers(members) + "}"
  {
  }

  lemma NumPrinted(key: string, n: int)
    ensures PrintMember(Member(key, Num(n))) == Field(key, Int(n)) && (n >= 0 ==> Int(n) == Dec(n))
  {
  }

  lemma StrPrinted(key: string, s: string)
    ensures PrintMember(Member(key, Str(s))) == Field(key, Quoted(s))
  {
  }

  lemma ThreadPrinted(row: Row<int>)
    ensures ThreadText(row) == Print(ThreadJson(row))
  {
    hide Quoted, Dec, Int, PrintMember, Field, Print;
    PrintThree(Member("tid", Num(row.key)), Member("written_total", Num(row.bytes)),
      Member("access_write_total", Num(row.accesses)));
    NumPrinted("tid", row.key);
    NumPrinted("written_total", row.bytes);
    NumPrinted("access_write_total", row.accesses);
    ObjPrinted(ThreadJson(row).members);
  }

  lemma InsnPrinted(row: Row<string>)
    ensures InsnText(row) == Print(InsnJson(row))
  {
    hide Quoted, Dec, Int, PrintMember, Field, Print;
    PrintThree(Member("instruction", Str(row.key)), Member("written_total", Num(row.bytes)),
      Member("access_write_total", Num(row.accesses)));
    StrPrinted("instruction", row.key);
    NumPrinted("written_total", row.bytes);
    NumPrinted("access_write_total", row.accesses);
    ObjPrinted(InsnJson(row).members);
  }

  /** Commas only between elements, none around them. */
  lemma {:induction false} CommasPrinted(texts: seq<string>, items: seq<Json>)
    requires |texts| == |items| && forall i :: 0 <= i < |items| ==> texts[i] == Print(items[i])
    ensures Commas(texts) == PrintItems(items)
  {
    hide Print;
    if |items| > 1 {
      CommasPrinted(texts[1..], items[1..]);
    }
  }

  lemma ArrPrinted(key: string, texts: seq<string>, items: seq<Json>)
    requires |texts| == |items| && forall i :: 0 <= i < |items| ==> texts[i] == Print(items[i])
    ensures PrintMember(Member(key, Arr(items))) == Field(key, "[" + Commas(texts) + "]")
  {
    hide Quoted;
    CommasPrinted(texts, items);
  }

  lemma ThreadsPrinted(rows: seq<Row<int>>)
    ensures PrintMember(Member("written_per_thread", Arr(ThreadJsons(rows))))
            == Field("written_per_thread", "[" + Commas(ThreadTexts(rows)) + "]")
  {
    hide Print, ThreadText, ThreadJson, Field, PrintMember;
    forall i | 0 <= i < |rows|
      ensures ThreadTexts(rows)[i] == Print(ThreadJsons(rows)[i])
    {
      ThreadPrinted(rows[i]);
    }
    ArrPrinted("written_per_thread", ThreadTexts(rows), ThreadJsons(rows));
  }

  lemma InsnsPrinted(rows: seq<Row<string>>)
    ensures PrintMember(Member("written_per_instruction", Arr(InsnJsons(rows))))
            == Field("written_per_instruction", "[" + Commas(InsnTexts(rows)) + "]")
  {
    hide Print, InsnText, InsnJson, Field, PrintMember;
    forall i | 0 <= i < |rows|
      ensures InsnTexts(rows)[i] == Print(InsnJsons(rows)[i])
    {
      InsnPrinted(rows[i]);
    }
    ArrPrinted("written_per_instruction", InsnTexts(rows), InsnJsons(rows));
  }

  /** Four or five members, grouped as the program's `fprintf` calls group them. */
  lemma PrintFour(a: Member, b: Member, c: Member, d: Member)
    ensures Print(Obj([a, b, c] + [] + [d]))
            == "{" + (PrintMember(a) + ", " + PrintMember(b) + ", " + PrintMember(c)) + "" + ", " + PrintMember(d) + "}"
  {
    hide PrintMember, PrintMembers, Print;
    PrintThree(b, c, d);
    PrintCons(a, [b, c, d]);
    assert [a, b, c] + [] + [d] == [a] + [b, c, d];
    ObjPrinted([a] + [b, c, d]);
    RegroupFour(PrintMember(a), PrintMember(b), PrintMember(c), PrintMember(d));
  }

  lemma RegroupFour(a: string, b: string, c: string, d: string)
    ensures "{" + (a + ", " + (b + ", " + (c + ", " + d))) + "}"
            == "{" + (a + ", " + b + ", " + c) + "" + ", " + d + "}"
  {
  }

  lemma PrintFive(a: Member, b: Member, c: Member, d: Member, e: Member)
    ensures Print(Obj([a, b, c] + [d] + [e]))
            == "{" + (PrintMember(a) + ", " + PrintMember(b) + ", " + PrintMember(c)) + (", " + PrintMember(d))
              + ", " + PrintMember(e) + "}"
  {
    hide PrintMember, PrintMembers, Print;
    PrintThree(c, d, e);
    PrintCons(b, [c, d, e]);
    PrintCons(a, [b] + [c, d, e]);
    FiveMembers(a, b, c, d, e);
    ObjPrinted([a] + ([b] + [c, d, e]));
    RegroupFive(PrintMember(a), PrintMember(b), PrintMember(c), PrintMember(d), PrintMember(e));
  }

  lemma FiveMembers(a: Member, b: Member, c: Member, d: Member, e: Member)
    ensures [a, b, c] + [d] + [e] == [a] + ([b] + [c, d, e])
  {
  }

  lemma RegroupFive(a: string, b: string, c: string, d: string, e: string)
    ensures "{" + (a + ", " + (b + ", " + (c + ", " + (d + ", " + e)))) + "}"
            == "{" + (a + ", " + b + ", " + c) + (", " + d) + ", " + e + "}"
  {
  }

  lemma EntryPrinted(e: Entry, store: bool)
    ensures EntryText(e, store) == Print(EntryJson(e, store))
  {
    hide Quoted, Dec, Int, PrintMember, Field, Print, Commas, ThreadTexts, InsnTexts, ThreadJsons, InsnJsons;
    var pid, bytes, accesses :=
      Member("pid", Num(e.pid)), Member("written_total", Num(e.bytes)), Member("access_write_total", Num(e.accesses));
    var insns, tids :=
      Member("written_per_instruction", Arr(InsnJsons(e.insns))),
        Member("written_per_thread", Arr(ThreadJsons(e.tids)));
    NumPrinted("pid", e.pid);
    NumPrinted("written_total", e.bytes);
    NumPrinted("access_write_total", e.accesses);
    ThreadsPrinted(e.tids);
    if store {
      InsnsPrinted(e.insns);
      PrintFive(pid, bytes, accesses, insns, tids);
    } else {
      PrintFour(pid, bytes, accesses, tids);
    }
  }

  lemma RecordPrinted(d: DumpRecord, store: bool)
    ensures RecordText(d, store) == Print(RecordJson(d, store))
  {
    hide Quoted, Dec, PrintMember, Field, Print, EntryText, EntryJson;
    StrPrinted("timestamp", Dec(d.timestamp));
    forall i | 0 <= i < |d.processes|
      ensures EntryTexts(d.processes, store)[i] == Print(EntryJsons(d.processes, store)[i])
    {
      EntryPrinted(d.processes[i], store);
    }
    ArrPrinted("processes", EntryTexts(d.processes, store), EntryJsons(d.processes, store));
    PrintTwo(Member("timestamp", Str(Dec(d.timestamp))), Member("processes", Arr(EntryJsons(d.processes, store))));
    ObjPrinted(RecordJson(d, store).members);
  }

  lemma SettingsPrinted(s: Settings)
    ensures SettingsText(s) == Print(SettingsJson(s))
  {
    hide Quoted, Int, PrintMember, Field, Print;
    NumPrinted("sample_period", s.samplePeriod);
    StrPrinted("general_cpuid_list", s.generalCpus);
    StrPrinted("nvmm_cpuid_list", s.nvmmCpus);
    PrintThree(Member("sample_period", Num(s.samplePeriod)),
               Member("general_cpuid_list", Str(s.generalCpus)), Member("nvmm_cpuid_list", Str(s.nvmmCpus)));
    ObjPrinted(SettingsJson(s).members);
  }

  lemma DebugPrinted(d: Debug)
    ensures DebugText(d) == Print(DebugJson(d))
  {
    hide Quoted, Int, Dec, PrintMember, Field, Print;
    NumPrinted("sampler_cputime_ms", d.samplerMs);
    NumPrinted("access_cputime_ms", d.accessMs);
    PrintTwo(Member("sampler_cputime_ms", Num(d.samplerMs)), Member("access_cputime_ms", Num(d.accessMs)));
    ObjPrinted(DebugJson(d).members);
  }

  // ----- What could need an escape -----

  predicate PlainEntry(e: Entry) {
    forall i :: 0 <= i < |e.insns| ==> Plain(e.insns[i].key)
  }

  /** Mnemonics are printed only if they are stored. */
  predicate PlainRecord(d: DumpRecord, store: bool) {
    store ==> forall j :: 0 <= j < |d.processes| ==> PlainEntry(d.processes[j])
  }

  predicate PlainRecords(ds: seq<DumpRecord>, store: bool) {
    forall i :: 0 <= i < |ds| ==> PlainRecord(ds[i], store)
  }

  /** The two CPU lists and the printed mnemonics contain no quote, backslash or control
      character. */
  predicate PlainDocument(doc: Document, store: bool) {
    Plain(doc.settings.generalCpus) && Plain(doc.settings.nvmmCpus) && PlainRecords(doc.records, store)
  }

  lemma PlainLiterals()
    ensures Plain("settings") && Plain("records") && Plain("debug") && Plain("timestamp") && Plain("processes")
    ensures Plain("pid") && Plain("tid") && Plain("instruction") && Plain("written_total")
            && Plain("access_write_total")
    ensures Plain("written_per_instruction") && Plain("written_per_thread")
  {
  }

  lemma PlainSettings()
    ensures Plain("sample_period") && Plain("general_cpuid_list") && Plain("nvmm_cpuid_list")
    ensures Plain("sampler_cputime_ms") && Plain("access_cputime_ms")
  {
  }

  lemma PlainDec(n: nat)
    ensures Plain(Dec(n))
  {
    DecIs(n);
    forall i | 0 <= i < |Dec(n)|
      ensures IsPlain(Dec(n)[i])
    {
      assert IsDigit(Dec(n)[i]);
    }
  }

  lemma EntryPlain(e: Entry, store: bool)
    ensures NoEscapes(EntryJson(e, store)) <==> (store ==> PlainEntry(e))
  {
    PlainLiterals();
    hide Plain;
    forall i | 0 <= i < |e.tids|
      ensures NoEscapes(ThreadJsons(e.tids)[i])
    {
      ThreadPlain(e.tids[i]);
    }
    forall i | 0 <= i < |e.insns|
      ensures NoEscapes(InsnJsons(e.insns)[i]) <==> Plain(e.insns[i].key)
    {
      InsnPlain(e.insns[i]);
    }
    hide ThreadJson, InsnJson, MemberPlain, NoEscapes;
    ObjPlain(EntryJson(e, store).members);
    MemberNum("pid", e.pid);
    MemberNum("written_total", e.bytes);
    MemberNum("access_write_total", e.accesses);
    MemberArr("written_per_instruction", InsnJsons(e.insns));
    MemberArr("written_per_thread", ThreadJsons(e.tids));
    var ms := EntryJson(e, store).members;
    assert store ==> ms[3] == Member("written_per_instruction", Arr(InsnJsons(e.insns)));
    assert PlainEntry(e) <==> forall i :: 0 <= i < |e.insns| ==> NoEscapes(InsnJsons(e.insns)[i]);
  }

  lemma ThreadPlain(row: Row<int>)
    ensures NoEscapes(ThreadJson(row))
  {
    PlainLiterals();
    hide Plain, MemberPlain, NoEscapes;
    MemberNum("tid", row.key);
    MemberNum("written_total", row.bytes);
    MemberNum("access_write_total", row.accesses);
    ObjPlain(ThreadJson(row).members);
  }

  lemma InsnPlain(row: Row<string>)
    ensures NoEscapes(InsnJson(row)) <==> Plain(row.key)
  {
    PlainLiterals();
    hide Plain, MemberPlain, NoEscapes;
    MemberStr("instruction", row.key);
    MemberNum("written_total", row.bytes);
    MemberNum("access_write_total", row.accesses);
    ObjPlain(InsnJson(row).members);
    assert InsnJson(row).members[0] == Member("instruction", Str(row.key));
  }

  lemma RecordPlain(d: DumpRecord, store: bool)
    ensures NoEscapes(RecordJson(d, store)) <==> PlainRecord(d, store)
  {
    PlainLiterals();
    PlainDec(d.timestamp);
    hide Plain, Dec, EntryJson, PlainEntry, MemberPlain, NoEscapes;
    var js := EntryJsons(d.processes, store);
    forall j | 0 <= j < |d.processes|
      ensures NoEscapes(js[j]) <==> (store ==> PlainEntry(d.processes[j]))
    {
      EntryPlain(d.processes[j], store);
    }
    MemberStr("timestamp", Dec(d.timestamp));
    MemberArr("processes", js);
    ObjPlain(RecordJson(d, store).members);
    assert RecordJson(d, store).members[1] == Member("processes", Arr(js));
  }

  lemma SettingsPlain(s: Settings)
    ensures NoEscapes(SettingsJson(s)) <==> Plain(s.generalCpus) && Plain(s.nvmmCpus)
  {
    PlainSettings();
    hide Plain, MemberPlain, NoEscapes;
    MemberNum("sample_period", s.samplePeriod);
    MemberStr("general_cpuid_list", s.generalCpus);
    MemberStr("nvmm_cpuid_list", s.nvmmCpus);
    var ms := SettingsJson(s).members;
    ObjPlain(ms);
    assert ms[1].value == Str(s.generalCpus) && ms[2].value == Str(s.nvmmCpus);
  }

  lemma DebugPlain(d: Debug)
    ensures NoEscapes(DebugJson(d))
  {
    PlainSettings();
    hide Plain, MemberPlain, NoEscapes;
    MemberNum("sampler_cputime_ms", d.samplerMs);
    MemberNum("access_cputime_ms", d.accessMs);
    ObjPlain(DebugJson(d).members);
  }

  // ----- Reading the whole report -----

  function RecordTokens(ds: seq<DumpRecord>, store: bool, first: bool): seq<Token> {
    if ds == [] then []
    else (if first then [] else [Comma]) + ItemTokens(RecordJsons(ds, store))
  }

  /** One record and its newline, after the comma that separates it from the record before. */
  lemma LexedRecord(d: DumpRecord, store: bool, first: bool, r: string)
    ensures Lexed((if first then "" else ",") + (RecordText(d, store) + "\n"),
                  (if first then [] else [Comma]) + Tokens(RecordJson(d, store)), PlainRecord(d, store), r)
  {
    hide Lexed, RecordText, RecordJson, Print, Tokens, NoEscapes, PlainRecord;
    var text, ts := RecordText(d, store), Tokens(RecordJson(d, store));
    RecordPrinted(d, store);
    RecordPlain(d, store);
    LexedSpace('\n', r);
    LexedPrint(RecordJson(d, store), ['\n'] + r);
    LexedBoth(text, ts, PlainRecord(d, store), ['\n'], [], true, r);
    assert ts + [] == ts;
    if first {
      assert "" + (text + "\n") == text + "\n" && [] + ts == ts;
    } else {
      LexedStructural(',', text + "\n" + r);
      LexedBoth(",", [Comma], true, text + "\n", ts, PlainRecord(d, store), r);
    }
  }

  lemma {:induction false} LexedRecords(ds: seq<DumpRecord>, store: bool, first: bool, r: string)
    ensures Lexed(RecordsText(ds, store, first), RecordTokens(ds, store, first), PlainRecords(ds, store), r)
  {
    hide Lexed, RecordText, RecordJson, Tokens, PlainRecord;
    if ds == [] {
      LexedNothing(r);
    } else {
      LexedRecord(ds[0], store, first, RecordsText(ds[1..], store, false) + r);
      LexedRecords(ds[1..], store, false, r);
      LexedBoth((if first then "" else ",") + (RecordText(ds[0], store) + "\n"),
                (if first then [] else [Comma]) + Tokens(RecordJson(ds[0], store)), PlainRecord(ds[0], store),
                RecordsText(ds[1..], store, false), RecordTokens(ds[1..], store, false),
                  PlainRecords(ds[1..], store), r);
      TokensOfRecords(ds, store, first);
      assert ds == [ds[0]] + ds[1..];
    }
  }

  lemma TokensOfRecords(ds: seq<DumpRecord>, store: bool, first: bool)
    requires ds != []
    ensures (if first then [] else [Comma]) + Tokens(RecordJson(ds[0], store)) + RecordTokens(ds[1..], store, false)
            == RecordTokens(ds, store, first)
  {
    hide Tokens, RecordJson;
    var js := RecordJsons(ds, store);
    assert js[1..] == RecordJsons(ds[1..], store) && js[0] == RecordJson(ds[0], store);
    if |ds| > 1 {
      assert ItemTokens(js) == Tokens(js[0]) + [Comma] + ItemTokens(js[1..]);
    } else {
      assert ItemTokens(js) == Tokens(js[0]);
    }
  }

  /** The worker's array, newlines and all. */
  lemma LexedWorker(ds: seq<DumpRecord>, store: bool, r: string)
    ensures Lexed(WorkerText(ds, store), Tokens(Arr(RecordJsons(ds, store))), PlainRecords(ds, store), r)
  {
    hide Lexed, RecordsText, PlainRecords, RecordJsons, RecordTokens;
    var text, ts, ok := RecordsText(ds, store, true), RecordTokens(ds, store, true), PlainRecords(ds, store);
    LexedRecords(ds, store, true, [']'] + (['\n'] + r));
    LexedSpace('\n', text + ([']'] + (['\n'] + r)));
    LexedBoth(['\n'], [], true, text, ts, ok, [']'] + (['\n'] + r));
    assert [] + ts == ts;
    LexedBetween('[', ['\n'] + text, ts, ok, ']', ['\n'] + r);
    LexedSpace('\n', r);
    LexedBoth(['['] + (['\n'] + text) + [']'], [OpenBracket] + ts + [CloseBracket], ok, ['\n'], [], true, r);
    assert ['['] + (['\n'] + text) + [']'] + ['\n'] == "[\n" + text + "]\n";
    WorkerTokens(ds, store);
    assert [OpenBracket] + ts + [CloseBracket] + [] == [OpenBracket] + (ts + [CloseBracket]);
  }

  lemma WorkerTokens(ds: seq<DumpRecord>, store: bool)
    ensures [OpenBracket] + (RecordTokens(ds, store, true) + [CloseBracket]) == Tokens(Arr(RecordJsons(ds, store)))
  {
    var js := RecordJsons(ds, store);
    assert RecordTokens(ds, store, true) == ItemTokens(js) by {
      if ds != [] {
        assert [] + ItemTokens(js) == ItemTokens(js);
      }
    }
    assert [OpenBracket] + (ItemTokens(js) + [CloseBracket]) == [OpenBracket] + ItemTokens(js) + [CloseBracket];
  }

  /** The tokens of the whole report, member by member. */
  lemma DocumentTokens(doc: Document, store: bool)
    ensures Tokens(DocumentJson(doc, store))
            == [OpenBrace] + (OneMember(Member("settings", SettingsJson(doc.settings))) + [Comma]
                              + ([Text("records"), Colon] + Tokens(Arr(RecordJsons(doc.records, store))) + [Comma]
                                 + OneMember(Member("debug", DebugJson(doc.debug))))) + [CloseBrace]
  {
    var settings, records, debug := Member("settings", SettingsJson(doc.settings)),
      Member("records", Arr(RecordJsons(doc.records, store))), Member("debug", DebugJson(doc.debug));
    hide SettingsJson, DebugJson, RecordJsons, OneMember;
    var ms := [settings, records, debug];
    assert ms[1..] == [records, debug] && ms[1..][1..] == [debug];
    assert MemberTokens(ms[1..][1..]) == OneMember(debug);
    assert MemberTokens(ms[1..]) == OneMember(records) + [Comma] + OneMember(debug);
    assert MemberTokens(ms) == OneMember(settings) + [Comma] + MemberTokens(ms[1..]);
    RecordsMember(records);
  }

  lemma RecordsMember(m: Member)
    ensures OneMember(m) == [Text(m.key), Colon] + Tokens(m.value)
  {
  }

  lemma MemberText(key: string, j: Json, text: string)
    requires text == Print(j)
    ensures PrintMember(Member(key, j)) == Field(key, text)
  {
  }

  lemma LexedDebug(d: Debug, r: string)
    requires !StartsWithDigit(r)
    ensures Lexed(Field("debug", DebugText(d)), OneMember(Member("debug", DebugJson(d))), true, r)
  {
    PlainLiterals();
    DebugPlain(d);
    hide Lexed, DebugText, DebugJson, Plain, Field, OneMember, PrintMember, NoEscapes, Print;
    DebugPrinted(d);
    MemberText("debug", DebugJson(d), DebugText(d));
    LexedMember(Member("debug", DebugJson(d)), r);
  }

  lemma LexedSettings(s: Settings, r: string)
    requires !StartsWithDigit(r)
    ensures Lexed(Field("settings", SettingsText(s)), OneMember(Member("settings", SettingsJson(s))),
                  Plain(s.generalCpus) && Plain(s.nvmmCpus), r)
  {
    PlainLiterals();
    SettingsPlain(s);
    hide Lexed, SettingsText, SettingsJson, Plain, Field, OneMember, PrintMember, NoEscapes, Print;
    SettingsPrinted(s);
    MemberText("settings", SettingsJson(s), SettingsText(s));
    LexedMember(Member("settings", SettingsJson(s)), r);
  }

  /** The records member: its key, a newline, and the worker's output. */
  lemma LexedRecordsMember(ds: seq<DumpRecord>, store: bool, r: string)
    ensures Lexed(Field("records", "\n") + WorkerText(ds, store),
                  [Text("records"), Colon] + Tokens(Arr(RecordJsons(ds, store))), PlainRecords(ds, store), r)
  {
    PlainLiterals();
    hide Lexed, WorkerText, Tokens, RecordJsons, PlainRecords, Plain, Quoted;
    var text, ts, ok := WorkerText(ds, store), Tokens(Arr(RecordJsons(ds, store))), PlainRecords(ds, store);
    LexedWorker(ds, store, r);
    LexedSpace('\n', text + r);
    LexedBoth(['\n'], [], true, text, ts, ok, r);
    assert [] + ts == ts;
    LexedKey("records", ['\n'] + text + r);
    LexedBoth(Quoted("records") + ": ", [Text("records"), Colon], true, ['\n'] + text, ts, ok, r);
    assert Field("records", "\n") + text == Quoted("records") + ": " + (['\n'] + text);
  }

  lemma DocumentRegroup(settings: string, records: string, worker: string, debug: string)
    ensures "{" + settings + ", " + records + worker + ", " + debug + "}\n"
            == ['{'] + (settings + ", " + (records + worker + ", " + debug)) + ['}'] + ['\n']
  {
  }

  /** The whole report is lexed into the tokens of the document exactly when it is plain. */
  lemma LexedDocument(doc: Document, store: bool)
    ensures Lex(DocumentText(doc, store)) == Some(Tokens(DocumentJson(doc, store))) <==> PlainDocument(doc, store)
  {
    hide Lex, Lexed, SettingsText, DebugText, WorkerText, Field, Tokens, OneMember, SettingsJson, DebugJson,
         RecordJsons,
         Plain, PlainRecords, DocumentJson;
    var S, R, D := Field("settings", SettingsText(doc.settings)),
      Field("records", "\n") + WorkerText(doc.records, store), Field("debug", DebugText(doc.debug));
    var s, r, d := OneMember(Member("settings", SettingsJson(doc.settings))),
      [Text("records"), Colon] + Tokens(Arr(RecordJsons(doc.records, store))),
        OneMember(Member("debug", DebugJson(doc.debug)));
    var okS, okR := Plain(doc.settings.generalCpus) && Plain(doc.settings.nvmmCpus), PlainRecords(doc.records, store);
    var end := ['}'] + (['\n'] + "");
    LexedDebug(doc.debug, end);
    LexedRecordsMember(doc.records, store, [','] + ([' '] + D + end));
    LexedCommaSpace(R, r, okR, D, d, true, end);
    LexedSettings(doc.settings, [','] + ([' '] + (R + ", " + D) + end));
    LexedCommaSpace(S, s, okS, R + ", " + D, r + [Comma] + d, okR, end);
    LexedBetween('{', S + ", " + (R + ", " + D), s + [Comma] + (r + [Comma] + d), okS && okR, '}', ['\n'] + "");
    LexedSpace('\n', "");
    LexedBoth(['{'] + (S + ", " + (R + ", " + D)) + ['}'],
      [OpenBrace] + (s + [Comma] + (r + [Comma] + d)) + [CloseBrace],
              okS && okR, ['\n'], [], true, "");
    DocumentRegroup(S, Field("records", "\n"), WorkerText(doc.records, store), D);
    DocumentTokens(doc, store);
    var ts := Tokens(DocumentJson(doc, store));
    assert ts + [] == ts;
    LexedAll(DocumentText(doc, store), ts, okS && okR);
  }

  /** The report is a JSON text whose value is the document, exactly when it is plain. */
  lemma ReadDocument(doc: Document, store: bool)
    ensures Read(DocumentText(doc, store)) == Some(DocumentJson(doc, store)) <==> PlainDocument(doc, store)
  {
    hide Read, Lex, DocumentText, DocumentJson, Tokens, PlainDocument;
    LexedDocument(doc, store);
    ReadTokens(DocumentText(doc, store), DocumentJson(doc, store));
  }
}
