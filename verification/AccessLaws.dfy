/** What a write leaves on the list of entries, row by row, and which processes a record lists. */
module AccessLaws {
  import opened AccessModel
  import opened Interleaving
  import opened Options
  import opened Report

  /** One access of `size` bytes was counted on the first row with the key, in its place, or on a
      new row in front. */
  ghost predicate Counted<K(!new)>(rows: seq<Row<K>>, key: K, size: nat, after: seq<Row<K>>) {
    if forall i :: 0 <= i < |rows| ==> rows[i].key != key then after == [Row(key, size, 1)] + rows
    else
      exists k :: 0 <= k < |rows| && rows[k].key == key && (forall i :: 0 <= i < k ==> rows[i].key != key)
        && after == rows[k := Row(key, rows[k].bytes + size, rows[k].accesses + 1)]
  }

  /** The entry of the process after the write. */
  ghost predicate CountedOn(e: Entry, store: bool, tid: int, d: Decoded, after: Entry) {
    && after.pid == e.pid && after.bytes == e.bytes + d.size && after.accesses == e.accesses + 1
    && Counted(e.tids, tid, d.size, after.tids)
    && if store then Counted(e.insns, d.insn, d.size, after.insns) else after.insns == e.insns
  }

  lemma {:induction false} KeyFound<K(!new)>(rows: seq<Row<K>>, key: K) returns (k: nat)
    requires HasKey(rows, key)
    ensures k < |rows| && rows[k].key == key && forall i :: 0 <= i < k ==> rows[i].key != key
  {
    if rows[0].key == key {
      k := 0;
    } else {
      HasKeyRest(rows, key);
      var j := KeyFound(rows[1..], key);
      k := j + 1;
      assert forall i :: 0 < i < |rows| ==> rows[i] == rows[1..][i - 1];
    }
  }

  lemma TrackCounts<K(!new)>(rows: seq<Row<K>>, key: K, size: nat)
    ensures Counted(rows, key, size, Track(rows, key, size))
  {
    if HasKey(rows, key) {
      var k := KeyFound(rows, key);
      BumpAt(rows, key, size, k);
    }
  }

  lemma TrackWriteCounts(e: Entry, store: bool, tid: int, d: Decoded)
    ensures CountedOn(e, store, tid, d, TrackWrite(e, store, tid, d))
  {
    TrackCounts(e.tids, tid, d.size);
    TrackCounts(e.insns, d.insn, d.size);
  }

  /** The position of the process's entry on the list, or of a new one at its end. */
  ghost predicate PlaceOf(entries: seq<Entry>, pid: int, k: nat) {
    && k <= |entries| && (forall i :: 0 <= i < k ==> entries[i].pid != pid)
    && (k < |entries| ==> entries[k].pid == pid)
  }

  /** A write only touches the entry of its process, which is there afterwards even if the
      instruction cannot be decoded. All others stay as they are and where they are, and a new one
      goes to the end. */
  lemma WriteExact(entries: seq<Entry>, store: bool, pid: int, tid: int, decoded: Option<Decoded>, k: nat)
    requires PlaceOf(entries, pid, k)
    ensures var was := if k < |entries| then entries else entries + [Entry(pid, 0, 0, [], [])];
            var w := AccessModel.Write(entries, store, pid, tid, decoded);
            && |w| == |was| && w == was[k := w[k]] && w[k].pid == pid
            && match decoded
               case None => w[k] == was[k]
               case Some(d) => CountedOn(was[k], store, tid, d, w[k])
  {
    hide CountedOn, TrackPid, TrackWrite;
    var was := if k < |entries| then entries else entries + [Entry(pid, 0, 0, [], [])];
    assert Ensure(entries, pid) == was;
    if decoded.Some? {
      TrackPidAt(was, store, pid, tid, decoded.value, k);
      TrackWriteCounts(was[k], store, tid, decoded.value);
      CountedPid(was[k], store, tid, decoded.value, TrackPid(was, store, pid, tid, decoded.value)[k]);
    }
  }

  lemma CountedPid(e: Entry, store: bool, tid: int, d: Decoded, after: Entry)
    requires CountedOn(e, store, tid, d, after)
    ensures after.pid == e.pid
  {
  }

  lemma {:induction false} PlaceFound(entries: seq<Entry>, pid: int) returns (k: nat)
    ensures PlaceOf(entries, pid, k)
  {
    if entries == [] || entries[0].pid == pid {
      k := 0;
    } else {
      var j := PlaceFound(entries[1..], pid);
      k := j + 1;
    }
  }

  // ----- Which processes a record lists -----

  ghost predicate Asks(writes: seq<Request>, pid: int) {
    exists j :: 0 <= j < |writes| && writes[j].pid == pid
  }

  lemma AsksOneMore(writes: seq<Request>, w: Request, pid: int)
    ensures Asks(writes + [w], pid) <==> Asks(writes, pid) || w.pid == pid
  {
    if Asks(writes, pid) {
      var j :| 0 <= j < |writes| && writes[j].pid == pid;
      assert (writes + [w])[j].pid == pid;
    }
    assert (writes + [w])[|writes|] == w;
  }

  /** The processes of the writes, each once, in the order of their first writes, whether or not the
      instructions could be decoded. */
  ghost predicate InOrderOfFirstWrite(entries: seq<Entry>, writes: seq<Request>) {
    && DistinctPids(entries)
    && (forall pid :: HasPid(entries, pid) <==> Asks(writes, pid))
    && (forall i, j :: 0 <= i < j < |entries| ==> FirstAsked(writes, entries[i].pid, entries[j].pid))
  }

  /** There is a write of `p` with no write of `q` up to it. */
  ghost predicate FirstAsked(writes: seq<Request>, p: int, q: int) {
    exists n :: 0 <= n <= |writes| && Asks(writes[..n], p) && !Asks(writes[..n], q)
  }

  lemma FirstAskedKept(writes: seq<Request>, w: Request, p: int, q: int)
    requires FirstAsked(writes, p, q)
    ensures FirstAsked(writes + [w], p, q)
  {
    var n :| 0 <= n <= |writes| && Asks(writes[..n], p) && !Asks(writes[..n], q);
    assert (writes + [w])[..n] == writes[..n];
  }

  lemma NewIsLast(writes: seq<Request>, w: Request, p: int)
    requires Asks(writes, p) && !Asks(writes, w.pid)
    ensures FirstAsked(writes + [w], p, w.pid)
  {
    assert (writes + [w])[..|writes|] == writes;
  }

  lemma ListOneMore(entries: seq<Entry>, writes: seq<Request>, w: Request, after: seq<Entry>)
    requires InOrderOfFirstWrite(entries, writes)
    requires forall i :: 0 <= i < |entries| && i < |after| ==> after[i].pid == entries[i].pid
    requires if HasPid(entries, w.pid) then |after| == |entries|
             else |after| == |entries| + 1 && after[|entries|].pid == w.pid
    ensures InOrderOfFirstWrite(after, writes + [w])
  {
    hide Asks, FirstAsked;
    forall pid: int
      ensures HasPid(after, pid) <==> Asks(writes + [w], pid)
    {
      AsksOneMore(writes, w, pid);
      SamePids(entries, after, pid);
    }
    forall i, j | 0 <= i < j < |after|
      ensures FirstAsked(writes + [w], after[i].pid, after[j].pid) && after[i].pid != after[j].pid
    {
      assert HasPid(entries, entries[i].pid);
      if j < |entries| {
        FirstAskedKept(writes, w, after[i].pid, after[j].pid);
      } else {
        NewIsLast(writes, w, after[i].pid);
      }
    }
  }

  lemma SamePids(entries: seq<Entry>, after: seq<Entry>, pid: int)
    requires |entries| <= |after| <= |entries| + 1 && forall i :: 0 <= i < |entries| ==> after[i].pid == entries[i].pid
    ensures HasPid(after, pid) <==> HasPid(entries, pid) || (|entries| < |after| && after[|entries|].pid == pid)
  {
    if HasPid(entries, pid) {
      var i :| 0 <= i < |entries| && entries[i].pid == pid;
      assert after[i].pid == pid;
    }
  }

  lemma {:induction false} WrittenLists(store: bool, writes: seq<Request>)
    ensures InOrderOfFirstWrite(Written(store, writes), writes)
  {
    hide Asks, FirstAsked, AccessModel.Write, CountedOn, InOrderOfFirstWrite;
    if writes == [] {
      NothingListed();
      WrittenOne(store, [], Request(0, 0, None));
    } else {
      var n := |writes| - 1;
      var before, w := Written(store, writes[..n]), writes[n];
      WrittenLists(store, writes[..n]);
      var k := PlaceFound(before, w.pid);
      WriteExact(before, store, w.pid, w.tid, w.decoded, k);
      assert writes[..n] + [w] == writes;
      WrittenOne(store, writes[..n], w);
      ListOneMore(before, writes[..n], w, Written(store, writes));
    }
  }

  lemma NothingListed()
    ensures InOrderOfFirstWrite([], [])
  {
  }

  /** Every record lists exactly the processes that wrote in its round. */
  lemma RecordsList(store: bool, rounds: seq<Round>, k: nat)
    requires k < |rounds|
    ensures var record := RecordsOf(store, rounds)[k];
            record.timestamp == rounds[k].now && InOrderOfFirstWrite(record.processes, rounds[k].writes)
  {
    WrittenLists(store, rounds[k].writes);
  }
}
