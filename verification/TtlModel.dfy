/** The per-process caches as one map from pids to deadlines. A lookup reads the clock, sweeps
    out every other entry whose deadline has passed, and renews or adds the entry asked for;
    an entry that has expired but was not swept yet is revived. */
module TtlModel {
  import opened IntrusiveList
  import opened Keyed
  import opened Options
  import opened Timespec

  datatype CacheEntry = CacheEntry(pid: int, deadline: Time)

  function PidOf(e: CacheEntry): int { e.pid }

  function DeadlineOf(e: CacheEntry): int { e.deadline.Nanos() }

  /** The pids with the instants their entries expire at. */
  type Table = map<int, int>

  function TableOf(entries: seq<CacheEntry>): Table {
    MapBy(entries, PidOf, DeadlineOf)
  }

  /** What the sweep for `pid` makes of one entry. In the inspector cache (`falls`) the renewed
      entry goes on to the expiry test; in the mock cache the loop skips that test. */
  function Keep(e: CacheEntry, pid: int, now: Time, deadline: Time, falls: bool): seq<CacheEntry> {
    if e.pid == pid then
      if falls && Passed(now, deadline) then [] else [e.(deadline := deadline)]
    else if Passed(now, e.deadline) then []
    else [e]
  }

  /** The list after the sweep. */
  function Kept(entries: seq<CacheEntry>, pid: int, now: Time, deadline: Time, falls: bool): seq<CacheEntry> {
    if entries == [] then []
    else
      var n := |entries| - 1;
      Kept(entries[..n], pid, now, deadline, falls) + Keep(entries[n], pid, now, deadline, falls)
  }

  lemma KeptStep(entries: seq<CacheEntry>, i: nat, pid: int, now: Time, deadline: Time, falls: bool)
    requires i < |entries|
    ensures Kept(entries[..i + 1], pid, now, deadline, falls) ==
            Kept(entries[..i], pid, now, deadline, falls) + Keep(entries[i], pid, now, deadline, falls)
  {
    assert entries[..i + 1][..i] == entries[..i];
  }

  lemma {:induction false} KeptNoMatch(entries: seq<CacheEntry>, pid: int, now: Time, d: Time, e: Time, falls: bool)
    requires forall i :: 0 <= i < |entries| ==> entries[i].pid != pid
    ensures Kept(entries, pid, now, d, falls) == Kept(entries, pid, now, e, falls)
  {
    if entries != [] {
      KeptNoMatch(entries[..|entries| - 1], pid, now, d, e, falls);
    }
  }

  function Swept(t: Table, pid: int, now: int): Table {
    map q | q in t && q != pid && t[q] > now :: t[q]
  }

  /** The whole lookup: an entry that is not found is added with deadline `deadline`. */
  function After(t: Table, pid: int, now: int, deadline: int, falls: bool): Table {
    if falls && pid in t && deadline <= now then Swept(t, pid, now) else Swept(t, pid, now)[pid := deadline]
  }

  ghost predicate Sound(entries: seq<CacheEntry>) {
    Unique(entries, PidOf) && forall i :: 0 <= i < |entries| ==> entries[i].deadline.Normal()
  }

  lemma SoundAppend(entries: seq<CacheEntry>, e: CacheEntry)
    requires Sound(entries) && e.pid !in TableOf(entries) && e.deadline.Normal()
    ensures Sound(entries + [e]) && TableOf(entries + [e]) == TableOf(entries)[e.pid := DeadlineOf(e)]
  {
    assert InsertAt(entries, |entries|, e) == entries + [e];
    MapByInsert(entries, PidOf, DeadlineOf, |entries|, e);
  }

  lemma LastIsNew(entries: seq<CacheEntry>)
    requires Sound(entries) && entries != []
    ensures entries[|entries| - 1].deadline.Normal()
    ensures var front, e := entries[..|entries| - 1], entries[|entries| - 1];
            Sound(front) && e.pid !in TableOf(front) && TableOf(entries) == TableOf(front)[e.pid := DeadlineOf(e)]
  {
    var front, e := entries[..|entries| - 1], entries[|entries| - 1];
    forall i | 0 <= i < |front|
      ensures PidOf(front[i]) != e.pid
    {
      assert PidOf(entries[i]) != PidOf(e);
    }
    MapByAbsent(front, PidOf, DeadlineOf, e.pid);
  }

  /** The table after the sweep, before a missing entry is added. */
  function AfterSweep(t: Table, pid: int, now: int, deadline: int, falls: bool): Table {
    if pid in t then After(t, pid, now, deadline, falls) else Swept(t, pid, now)
  }

  /** One more entry in the table: what becomes of it, and that the others are not affected. */
  lemma AfterSweepAdd(t: Table, p: int, at: int, pid: int, now: int, deadline: int, falls: bool)
    requires p !in t
    ensures var before, after :=
            AfterSweep(t, pid, now, deadline, falls), AfterSweep(t[p := at], pid, now, deadline, falls);
            && p !in before
            && after == (if p == pid then if falls && deadline <= now then before else before[p := deadline]
                         else if at <= now then before
                         else before[p := at])
  {
    var t', s := t[p := at], Swept(t, pid, now);
    if p != pid && at > now {
      assert Swept(t', pid, now) == s[p := at];
    } else {
      assert Swept(t', pid, now) == s;
    }
  }

  lemma {:induction false} KeptIsSwept(entries: seq<CacheEntry>, pid: int, now: Time, deadline: Time, falls: bool)
    requires Sound(entries) && now.Normal() && deadline.Normal()
    ensures Sound(Kept(entries, pid, now, deadline, falls))
    ensures TableOf(Kept(entries, pid, now, deadline, falls)) ==
            AfterSweep(TableOf(entries), pid, now.Nanos(), deadline.Nanos(), falls)
  {
    hide *;
    if entries == [] {
      NothingKept(pid, now, deadline, falls);
    } else {
      var n := |entries| - 1;
      var front, e := entries[..n], entries[n];
      LastIsNew(entries);
      KeptIsSwept(front, pid, now, deadline, falls);
      assert entries[..n + 1] == entries;
      KeptStep(entries, n, pid, now, deadline, falls);
      KeepIs(Kept(front, pid, now, deadline, falls), TableOf(front), e, pid, now, deadline, falls);
    }
  }

  lemma NothingKept(pid: int, now: Time, deadline: Time, falls: bool)
    ensures Kept([], pid, now, deadline, falls) == [] && Sound([]) && TableOf([]) == map[]
    ensures AfterSweep(map[], pid, now.Nanos(), deadline.Nanos(), falls) == map[]
  {
  }

  lemma KeepIs(kept: seq<CacheEntry>, t: Table, e: CacheEntry, pid: int, now: Time, deadline: Time, falls: bool)
    requires Sound(kept) && TableOf(kept) == AfterSweep(t, pid, now.Nanos(), deadline.Nanos(), falls)
    requires e.pid !in t && e.deadline.Normal() && now.Normal() && deadline.Normal()
    ensures Sound(kept + Keep(e, pid, now, deadline, falls))
    ensures TableOf(kept + Keep(e, pid, now, deadline, falls)) ==
            AfterSweep(t[e.pid := DeadlineOf(e)], pid, now.Nanos(), deadline.Nanos(), falls)
  {
    hide Passed, Sound, TableOf, AfterSweep;
    PassedIsOrder(now, e.deadline);
    PassedIsOrder(now, deadline);
    AfterSweepAdd(t, e.pid, DeadlineOf(e), pid, now.Nanos(), deadline.Nanos(), falls);
    var keep := Keep(e, pid, now, deadline, falls);
    if keep == [] {
      assert kept + keep == kept;
    } else {
      SoundAppend(kept, keep[0]);
      assert kept + keep == kept + [keep[0]];
    }
  }

  /** The two loops differ on exactly one occasion: a found entry whose renewed deadline is not
      after the reading the sweep works with. */
  lemma FormsDiffer(t: Table, pid: int, now: int, deadline: int)
    ensures After(t, pid, now, deadline, true) == After(t, pid, now, deadline, false)
            <==> !(pid in t && deadline <= now)
  {
    assert pid in After(t, pid, now, deadline, false);
    assert pid !in Swept(t, pid, now);
  }

  /** Entries that live for no time: the inspector cache finds process 1 and drops it in the same
      sweep. */
  lemma FoundAndDropped()
    ensures 1 in map[1 := 0] && 1 !in After(map[1 := 0], 1, 0, 0, true)
  {
  }

  /** A lookup of `pid`: the sweep reads `now` and the deadline is counted from `at`. */
  datatype Call = Call(pid: int, now: int, at: int)

  ghost predicate Timed(calls: seq<Call>) {
    forall i :: 0 <= i < |calls| ==> calls[i].now <= calls[i].at
  }

  function Run(calls: seq<Call>, expiry: int, falls: bool): Table {
    if calls == [] then map[]
    else
      var c := calls[|calls| - 1];
      After(Run(calls[..|calls| - 1], expiry, falls), c.pid, c.now, c.at + expiry, falls)
  }

  lemma {:induction false} PositiveAgrees(calls: seq<Call>, expiry: int)
    requires Timed(calls) && expiry > 0
    ensures Run(calls, expiry, true) == Run(calls, expiry, false)
  {
    if calls != [] {
      var n := |calls| - 1;
      PositiveAgrees(calls[..n], expiry);
      FormsDiffer(Run(calls[..n], expiry, true), calls[n].pid, calls[n].now, calls[n].at + expiry);
    }
  }

  /** The two caches are the same map on all runs exactly when entries live for a positive time. */
  lemma {:induction false} FormsAgreeExactly(expiry: int)
    ensures expiry > 0 <==> forall calls :: Timed(calls) ==> Run(calls, expiry, true) == Run(calls, expiry, false)
  {
    if expiry > 0 {
      forall calls | Timed(calls)
        ensures Run(calls, expiry, true) == Run(calls, expiry, false)
      {
        PositiveAgrees(calls, expiry);
      }
    } else {
      var c := Call(1, 0, 0);
      var calls := [c, c];
      assert calls[..1] == [c] && [c][..0] == [];
      assert Run([c], expiry, true) == map[1 := expiry];
      assert 1 in Run(calls, expiry, false) && 1 !in Run(calls, expiry, true);
      assert Timed(calls);
    }
  }

  /** The last time `pid` was asked for. */
  function LastAsk(calls: seq<Call>, pid: int): (i: Option<nat>)
    ensures i.Some? ==> i.value < |calls| && calls[i.value].pid == pid
    ensures forall j :: (if i.Some? then i.value + 1 else 0) <= j < |calls| ==> calls[j].pid != pid
  {
    if calls == [] then None
    else if calls[|calls| - 1].pid == pid then Some(|calls| - 1)
    else LastAsk(calls[..|calls| - 1], pid)
  }

  /** The entry of the `i`-th lookup has outlived the sweeps since. */
  ghost predicate Outlived(calls: seq<Call>, i: nat, expiry: int)
    requires i < |calls|
  {
    forall j :: i < j < |calls| ==> calls[j].now < calls[i].at + expiry
  }

  /** The inspector cache has dropped the entry that its `i`-th lookup found. */
  predicate Dropped(calls: seq<Call>, i: nat, expiry: int, falls: bool)
    requires i < |calls|
  {
    falls && calls[i].pid in Run(calls[..i], expiry, falls) && calls[i].at + expiry <= calls[i].now
  }

  /** Who is cached, in closed form: a process is, with the deadline of its last lookup, exactly
      when no lookup of another process since has swept at or after that deadline, and that lookup
      has not dropped it itself. How late its own next lookup comes does not matter, which is the
      revival. */
  lemma {:induction false} CachedExactly(calls: seq<Call>, pid: int, expiry: int, falls: bool)
    ensures var t, i := Run(calls, expiry, falls), LastAsk(calls, pid);
            && (pid in t <==> i.Some? && Outlived(calls, i.value, expiry) && !Dropped(calls, i.value, expiry, falls))
            && (pid in t ==> t[pid] == calls[i.value].at + expiry)
  {
    if calls != [] {
      var n := |calls| - 1;
      CachedExactly(calls[..n], pid, expiry, falls);
      var i := LastAsk(calls, pid);
      if calls[n].pid != pid && i.Some? {
        OutlivedStep(calls, i.value, expiry);
        assert calls[..n][..i.value] == calls[..i.value];
      }
    }
  }

  lemma OutlivedStep(calls: seq<Call>, i: nat, expiry: int)
    requires i < |calls| - 1
    ensures var n := |calls| - 1;
            Outlived(calls, i, expiry) <==> Outlived(calls[..n], i, expiry) && calls[n].now < calls[i].at + expiry
  {
    var n := |calls| - 1;
    assert forall j :: 0 <= j < n ==> calls[..n][j] == calls[j];
    if Outlived(calls[..n], i, expiry) && calls[n].now < calls[i].at + expiry {
      forall j | i < j < |calls|
        ensures calls[j].now < calls[i].at + expiry
      {
        assert j < n ==> calls[..n][j].now < calls[..n][i].at + expiry;
      }
    }
    if Outlived(calls, i, expiry) {
      assert calls[n].now < calls[i].at + expiry;
    }
  }
}
