/** The printed text in terms of the program's own format strings. */
module ReportFormat {
  import opened AccessModel
  import opened Decimal
  import opened Json
  import opened Report

  lemma FieldIs(name: string, key: string, value: string)
    requires key == "\"" + name + "\": "
    ensures Field(name, value) == key + value
  {
  }

  lemma Two(a: string, v: string, b: string, w: string)
    ensures "{" + ((a + v) + ", " + (b + w)) + "}" == ("{" + a) + v + (", " + b) + w + "}"
  {
  }

  lemma Three(a: string, v: string, b: string, w: string, c: string, x: string)
    ensures "{" + ((a + v) + ", " + ((b + w) + ", " + (c + x))) + "}"
            == ("{" + a) + v + (", " + b) + w + (", " + c) + x + "}"
  {
  }

  lemma InQuotes(a: string, s: string, b: string)
    ensures a + Quoted(s) + b == (a + "\"") + s + ("\"" + b)
  {
  }

  lemma BytesFormat(v: string)
    ensures Field("written_total", v) == "\"written_total\": " + v
    ensures ", " + "\"written_total\": " == ", \"written_total\": "
  {
    FieldIs("written_total", "\"written_total\": ", v);
  }

  lemma AccessesFormat(v: string)
    ensures Field("access_write_total", v) == "\"access_write_total\": " + v
    ensures ", " + "\"access_write_total\": " == ", \"access_write_total\": "
  {
    FieldIs("access_write_total", "\"access_write_total\": ", v);
  }

  lemma ThreadFormat(row: Row<int>)
    ensures ThreadText(row)
            == "{\"tid\": " + Int(row.key) + ", \"written_total\": " + Dec(row.bytes)
               + ", \"access_write_total\": " + Dec(row.accesses) + "}"
  {
    hide Dec, Int, Field;
    var tid, bytes, accesses := Int(row.key), Dec(row.bytes), Dec(row.accesses);
    FieldIs("tid", "\"tid\": ", tid);
    BytesFormat(bytes);
    AccessesFormat(accesses);
    Three("\"tid\": ", tid, "\"written_total\": ", bytes, "\"access_write_total\": ", accesses);
    assert "{" + "\"tid\": " == "{\"tid\": ";
  }

  lemma InsnFormat(row: Row<string>)
    ensures InsnText(row)
            == "{\"instruction\": \"" + row.key + "\", \"written_total\": " + Dec(row.bytes)
               + ", \"access_write_total\": " + Dec(row.accesses) + "}"
  {
    hide Dec, Field, Quoted;
    var insn, bytes, accesses := Quoted(row.key), Dec(row.bytes), Dec(row.accesses);
    FieldIs("instruction", "\"instruction\": ", insn);
    BytesFormat(bytes);
    AccessesFormat(accesses);
    Three("\"instruction\": ", insn, "\"written_total\": ", bytes, "\"access_write_total\": ", accesses);
    InQuotes("{" + "\"instruction\": ", row.key, ", \"written_total\": ");
    InsnQuotes();
  }

  lemma InsnQuotes()
    ensures "{" + "\"instruction\": " + "\"" == "{\"instruction\": \""
    ensures "\"" + ", \"written_total\": " == "\", \"written_total\": "
  {
  }

  lemma DebugFormat(d: Debug)
    ensures DebugText(d)
            == "{\"sampler_cputime_ms\": " + Dec(d.samplerMs) + ", \"access_cputime_ms\": " + Dec(d.accessMs) + "}"
  {
    hide Dec, Field;
    FieldIs("sampler_cputime_ms", "\"sampler_cputime_ms\": ", Dec(d.samplerMs));
    FieldIs("access_cputime_ms", "\"access_cputime_ms\": ", Dec(d.accessMs));
    Two("\"sampler_cputime_ms\": ", Dec(d.samplerMs), "\"access_cputime_ms\": ", Dec(d.accessMs));
    DebugKeys();
  }

  lemma DebugKeys()
    ensures "{" + "\"sampler_cputime_ms\": " == "{\"sampler_cputime_ms\": "
    ensures ", " + "\"access_cputime_ms\": " == ", \"access_cputime_ms\": "
  {
  }

  lemma SettingsFormat(s: Settings)
    ensures SettingsText(s)
            == "{\"sample_period\": " + Int(s.samplePeriod) + ", \"general_cpuid_list\": \"" + s.generalCpus
               + "\", \"nvmm_cpuid_list\": \"" + s.nvmmCpus + "\"}"
  {
    hide Int, Field, Quoted;
    var period, general, nvmm := Int(s.samplePeriod), Quoted(s.generalCpus), Quoted(s.nvmmCpus);
    FieldIs("sample_period", "\"sample_period\": ", period);
    FieldIs("general_cpuid_list", "\"general_cpuid_list\": ", general);
    FieldIs("nvmm_cpuid_list", "\"nvmm_cpuid_list\": ", nvmm);
    Three("\"sample_period\": ", period, "\"general_cpuid_list\": ", general, "\"nvmm_cpuid_list\": ", nvmm);
    SettingsQuotes("{" + "\"sample_period\": " + period, s.generalCpus, s.nvmmCpus);
    SettingsKeys();
    SettingsEnds();
  }

  lemma SettingsQuotes(front: string, general: string, nvmm: string)
    ensures front + (", " + "\"general_cpuid_list\": ") + Quoted(general) + (", " + "\"nvmm_cpuid_list\": ")
              + Quoted(nvmm) + "}"
            == front + (", " + "\"general_cpuid_list\": " + "\"") + general
              + ("\"" + ", " + "\"nvmm_cpuid_list\": " + "\"")
              + nvmm + ("\"" + "}")
  {
    InQuotes(front + (", " + "\"general_cpuid_list\": "), general,
      (", " + "\"nvmm_cpuid_list\": ") + Quoted(nvmm) + "}");
    InQuotes(", " + "\"nvmm_cpuid_list\": ", nvmm, "}");
  }

  lemma SettingsKeys()
    ensures ", " + "\"general_cpuid_list\": " + "\"" == ", \"general_cpuid_list\": \""
    ensures "\"" + ", " + "\"nvmm_cpuid_list\": " + "\"" == "\", \"nvmm_cpuid_list\": \""
  {
  }

  lemma SettingsEnds()
    ensures "{" + "\"sample_period\": " == "{\"sample_period\": "
    ensures "\"" + "}" == "\"}"
  {
  }

  lemma ListFormat(name: string, key: string, open: string, items: string)
    requires key == "\"" + name + "\": " && open == ", " + key + "["
    ensures ", " + Field(name, "[" + items + "]") == open + items + "]"
  {
    hide Field;
    FieldIs(name, key, "[" + items + "]");
  }

  lemma InsnListKey()
    ensures "\"" + "written_per_instruction" + "\": " == "\"written_per_instruction\": "
  {
  }

  lemma InsnListOpens()
    ensures ", " + "\"written_per_instruction\": " + "[" == ", \"written_per_instruction\": ["
  {
  }

  lemma ThreadListKey()
    ensures "\"" + "written_per_thread" + "\": " == "\"written_per_thread\": "
  {
  }

  lemma ThreadListOpens()
    ensures ", " + "\"written_per_thread\": " + "[" == ", \"written_per_thread\": ["
  {
  }

  lemma Entries(a: string, v: string, b: string, w: string, c: string, x: string, insns: string, tids: string)
    ensures "{" + ((a + v) + ", " + (b + w) + ", " + (c + x)) + insns + ", " + tids + "}"
            == ("{" + a) + v + (", " + b) + w + (", " + c) + x + insns + (", " + tids) + "}"
  {
  }

  lemma EntryFormat(e: Entry, store: bool)
    ensures EntryText(e, store)
            == "{\"pid\": " + Int(e.pid) + ", \"written_total\": " + Dec(e.bytes)
               + ", \"access_write_total\": " + Dec(e.accesses)
               + (if store then ", \"written_per_instruction\": [" + Commas(InsnTexts(e.insns)) + "]" else "")
               + (", \"written_per_thread\": [" + Commas(ThreadTexts(e.tids)) + "]") + "}"
  {
    hide Int, Dec, Field, Commas, InsnTexts, ThreadTexts;
    var pid, bytes, accesses := Int(e.pid), Dec(e.bytes), Dec(e.accesses);
    var insns, tids := Commas(InsnTexts(e.insns)), Commas(ThreadTexts(e.tids));
    FieldIs("pid", "\"pid\": ", pid);
    BytesFormat(bytes);
    AccessesFormat(accesses);
    InsnListKey();
    InsnListOpens();
    ThreadListKey();
    ThreadListOpens();
    ListFormat("written_per_instruction", "\"written_per_instruction\": ", ", \"written_per_instruction\": [", insns);
    ListFormat("written_per_thread", "\"written_per_thread\": ", ", \"written_per_thread\": [", tids);
    Entries("\"pid\": ", pid, "\"written_total\": ", bytes, "\"access_write_total\": ", accesses,
            if store then ", " + Field("written_per_instruction", "[" + insns + "]") else "",
            Field("written_per_thread", "[" + tids + "]"));
    assert "{" + "\"pid\": " == "{\"pid\": ";
  }

  lemma Records(t: string, a: string, v: string, b: string, items: string)
    requires t == (a + "\"") + v + "\""
    ensures "{" + (t + ", " + (b + ("[" + items + "]"))) + "}"
            == ("{" + a + "\"") + v + ("\"" + ", " + b + "[") + items + ("]" + "}")
  {
  }

  lemma RecordFormat(d: DumpRecord, store: bool)
    ensures RecordText(d, store)
            == "{\"timestamp\": \"" + Dec(d.timestamp) + "\", \"processes\": ["
               + Commas(EntryTexts(d.processes, store)) + "]}"
  {
    hide Dec, Field, Commas, EntryTexts;
    var stamp, items := Dec(d.timestamp), Commas(EntryTexts(d.processes, store));
    FieldIs("timestamp", "\"timestamp\": ", Quoted(stamp));
    FieldIs("processes", "\"processes\": ", "[" + items + "]");
    assert "\"timestamp\": " + Quoted(stamp) == ("\"timestamp\": " + "\"") + stamp + "\"";
    Records(Field("timestamp", Quoted(stamp)), "\"timestamp\": ", stamp, "\"processes\": ", items);
    RecordKeys();
  }

  lemma RecordKeys()
    ensures "{" + "\"timestamp\": " + "\"" == "{\"timestamp\": \""
    ensures "\"" + ", " + "\"processes\": " + "[" == "\", \"processes\": ["
    ensures "]" + "}" == "]}"
  {
  }

  /** A comma in front of every text but the first. */
  lemma {:induction false} CommasFormat(texts: seq<string>, last: string)
    ensures Commas(texts + [last]) == if texts == [] then last else Commas(texts) + "," + last
  {
    var all := texts + [last];
    if texts != [] {
      CommasFormat(texts[1..], last);
      assert all[1..] == texts[1..] + [last];
      if |texts| == 1 {
        assert Commas(texts) == texts[0];
      } else {
        CommaMoves(texts[0], Commas(texts[1..]), last);
      }
    }
  }

  lemma CommaMoves(first: string, more: string, last: string)
    ensures first + "," + (more + "," + last) == first + "," + more + "," + last
  {
  }

  /** A line for each record, with a comma in front of every record but the first. */
  lemma {:induction false} RecordsFormat(ds: seq<DumpRecord>, store: bool, first: bool, last: DumpRecord)
    ensures RecordsText([], store, first) == ""
    ensures RecordsText(ds + [last], store, first)
            == RecordsText(ds, store, first) + (if ds == [] && first then "" else ",") + RecordText(last, store) + "\n"
  {
    hide RecordText;
    var all := ds + [last];
    if ds == [] {
      assert all[1..] == [];
    } else {
      RecordsFormat(ds[1..], store, false, last);
      assert all[1..] == ds[1..] + [last];
      LineMoves((if first then "" else ",") + (RecordText(ds[0], store) + "\n"), RecordsText(ds[1..], store, false),
                RecordText(last, store));
    }
  }

  lemma LineMoves(line: string, more: string, last: string)
    ensures line + (more + "," + last + "\n") == line + more + "," + last + "\n"
  {
  }

  /** The output around the records. */
  lemma DocumentFormat(doc: Document, store: bool)
    ensures DocumentText(doc, store)
            == "{\"settings\": " + SettingsText(doc.settings) + ", \"records\": \n" + "[\n"
               + RecordsText(doc.records, store, true) + "]\n" + ", \"debug\": " + DebugText(doc.debug) + "}\n"
  {
    hide SettingsText, RecordsText, DebugText, Field;
    var settings, records, debug :=
      SettingsText(doc.settings), RecordsText(doc.records, store, true), DebugText(doc.debug);
    FieldIs("settings", "\"settings\": ", settings);
    FieldIs("records", "\"records\": ", "\n");
    FieldIs("debug", "\"debug\": ", debug);
    Around("\"settings\": ", settings, "\"records\": ", records, "\"debug\": ", debug);
    DocumentKeys();
  }

  lemma Around(a: string, v: string, b: string, w: string, c: string, x: string)
    ensures "{" + (a + v) + ", " + (b + "\n") + ("[\n" + w + "]\n") + ", " + (c + x) + "}\n"
            == ("{" + a) + v + (", " + b + "\n") + "[\n" + w + "]\n" + (", " + c) + x + "}\n"
  {
  }

  lemma DocumentKeys()
    ensures "{" + "\"settings\": " == "{\"settings\": "
    ensures ", " + "\"records\": " + "\n" == ", \"records\": \n"
    ensures ", " + "\"debug\": " == ", \"debug\": "
  {
  }
}
