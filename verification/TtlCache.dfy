/** The per-process caches on their linked list: `memmkcache_get` and `meminscache_get`. */
module TtlCache {
  import opened IntrusiveList
  import opened Keyed
  import opened Timespec
  import opened TtlModel

  /** Position `k` of a list is replaced by what the sweep keeps of it. */
  function Spliced(entries: seq<CacheEntry>, k: nat, keep: seq<CacheEntry>): seq<CacheEntry>
    requires k < |entries|
  {
    entries[..k] + keep + entries[k + 1..]
  }

  lemma SplicedIs(entries: seq<CacheEntry>, k: nat, e: CacheEntry)
    requires k < |entries|
    ensures Spliced(entries, k, [e]) == entries[k := e]
    ensures Spliced(entries, k, [entries[k]]) == entries
    ensures Spliced(entries, k, []) == RemoveAt(entries, k) == RemoveAt(entries[k := e], k)
  {
    assert entries[k := entries[k]] == entries;
  }

  /** The entries once the first `i` of `was` have been visited. */
  function Partly(was: seq<CacheEntry>, i: nat, pid: int, now: Time, deadline: Time, falls: bool): seq<CacheEntry>
    requires i <= |was|
  {
    Kept(was[..i], pid, now, deadline, falls) + was[i..]
  }

  lemma PartlyStep(was: seq<CacheEntry>, i: nat, pid: int, now: Time, deadline: Time, falls: bool)
    requires i < |was|
    ensures var k := |Kept(was[..i], pid, now, deadline, falls)|;
            var t := Partly(was, i, pid, now, deadline, falls);
            && k < |t| && t[k] == was[i]
            && Spliced(t, k, Keep(was[i], pid, now, deadline, falls)) == Partly(was, i + 1, pid, now, deadline, falls)
            && |Kept(was[..i + 1], pid, now, deadline, falls)| == k + |Keep(was[i], pid, now, deadline, falls)|
  {
    KeptStep(was, i, pid, now, deadline, falls);
  }

  lemma PartlyAny(was: seq<CacheEntry>, i: nat, pid: int, now: Time, d: Time, e: Time, falls: bool)
    requires i <= |was| && forall j :: 0 <= j < i ==> was[j].pid != pid
    ensures Kept(was[..i], pid, now, d, falls) == Kept(was[..i], pid, now, e, falls)
  {
    KeptNoMatch(was[..i], pid, now, d, e, falls);
  }

  lemma PartlyEnds(was: seq<CacheEntry>, pid: int, now: Time, deadline: Time, falls: bool)
    ensures Partly(was, 0, pid, now, deadline, falls) == was && Kept(was[..0], pid, now, deadline, falls) == []
    ensures Partly(was, |was|, pid, now, deadline, falls) == Kept(was, pid, now, deadline, falls)
  {
    assert was[..|was|] == was;
  }

  class Cache {
    const entries: List<CacheEntry>
    const expiry: Time
    const clock: Clock
    /** Which of the two loops: without a `continue` a renewed entry falls through to the
        expiry test. */
    const falls: bool

    ghost predicate Valid()
      reads this, entries, entries.head, entries.nodes, clock
    {
      entries.Valid() && clock.Valid() && expiry.Normal() && Sound(entries.Items())
    }

    ghost function Abs(): Table
      reads entries, entries.nodes
    {
      TableOf(entries.Items())
    }

    constructor (expiry: Time, clock: Clock, falls: bool)
      requires expiry.Normal() && clock.Valid()
      ensures Valid() && Abs() == map[] && fresh(entries) && fresh(entries.head) && entries.nodes == []
      ensures this.expiry == expiry && this.clock == clock && this.falls == falls
    {
      entries := new List();
      this.expiry := expiry;
      this.clock := clock;
      this.falls := falls;
    }

    /** The body of the sweep loop. */
    method Visit(current: ListNode<CacheEntry>, pid: int, now: Time, ghost k: nat)
      returns (matched: bool, ghost removed: bool, ghost deadline: Time)
      requires entries.Valid() && clock.Valid() && expiry.Normal() && k < |entries.nodes| && entries.nodes[k] == current
      modifies entries`nodes, entries.head`next, entries.head`prev, entries.nodes`next, entries.nodes`prev,
               current`item, clock
      ensures entries.Valid() && clock.Valid() && current.next == old(current.next)
      ensures matched == (current.item.pid == pid) && current.item.pid == old(current.item.pid)
      ensures matched ==> deadline.Normal() && deadline.Nanos() == clock.last.Nanos() + expiry.Nanos()
      ensures if matched then old(clock.last).Nanos() <= clock.last.Nanos() else clock.last == old(clock.last)
      ensures removed == (Keep(old(current.item), pid, now, deadline, falls) == [])
      ensures entries.nodes == if removed then RemoveAt(old(entries.nodes), k) else old(entries.nodes)
      ensures entries.Items() == Spliced(old(entries.Items()), k, Keep(old(current.item), pid, now, deadline, falls))
      ensures !matched ==> current.item == old(current.item)
      ensures matched ==> current.item == old(current.item).(deadline := deadline)
    {
      hide Ring, ItemsOf, Spliced, Passed;
      ghost var before := entries.Items();
      matched, removed, deadline := false, false, current.item.deadline;
      if current.item.pid == pid {
        var renewed := clock.In(expiry);
        deadline := renewed;
        entries.Update(current, current.item.(deadline := renewed), k);
        matched := true;
        if !falls {
          SplicedIs(before, k, current.item);
          return;
        }
      }
      SplicedIs(before, k, current.item);
      if Passed(now, current.item.deadline) {
        entries.Remove(current, k);
        removed := true;
      }
    }

    /** The sweep is past `i` of the entries `all` it started with, which read `was`; `k` of them
        are still listed. */
    ghost predicate Sweeping(was: seq<CacheEntry>, all: seq<ListNode<CacheEntry>>, i: nat, k: nat,
                             pid: int, now: Time, deadline: Time)
      reads entries, entries.head, entries.nodes, clock, all
    {
      && entries.Valid() && clock.Valid() && expiry.Normal() && now.Normal() && deadline.Normal()
      && |was| == |all| && i <= |all| && k <= |entries.nodes| && Walk(entries.nodes, k, all, i)
      && (forall j :: 0 <= j < |all| ==> all[j].item.pid == was[j].pid)
      && k == |Kept(was[..i], pid, now, deadline, falls)|
      && entries.Items() == Partly(was, i, pid, now, deadline, falls)
    }

    lemma SweepingParts(was: seq<CacheEntry>, all: seq<ListNode<CacheEntry>>, i: nat, k: nat,
                        pid: int, now: Time, deadline: Time)
      requires Sweeping(was, all, i, k, pid, now, deadline)
      ensures entries.Valid() && clock.Valid() && |was| == |all| && i <= |all| && k <= |entries.nodes|
      ensures forall j :: 0 <= j < |entries.nodes| ==> entries.nodes[j] in all
      ensures k == |entries.nodes| <==> i == |all|
      ensures i == |all| ==> entries.Items() == Kept(was, pid, now, deadline, falls)
    {
      hide Ring, ItemsOf, Kept;
      WalkWithin(entries.nodes, k, all, i);
      PartlyEnds(was, pid, now, deadline, falls);
    }

    method Round(current: ListNode<CacheEntry>, pid: int, now: Time, ghost deadline: Time,
                 ghost was: seq<CacheEntry>, ghost all: seq<ListNode<CacheEntry>>, ghost i: nat, ghost k: nat)
      returns (matched: bool, ghost l: nat, ghost renewed: Time)
      requires Sweeping(was, all, i, k, pid, now, deadline)
      requires k < |entries.nodes| && entries.nodes[k] == current
      requires forall j :: 0 <= j < i && i < |was| && was[i].pid == pid ==> was[j].pid != pid
      modifies entries`nodes, entries.head`next, entries.head`prev, entries.nodes`next, entries.nodes`prev,
               current`item, clock
      ensures i < |all| && current == all[i] && Sweeping(was, all, i + 1, l, pid, now, renewed)
      ensures matched == (was[i].pid == pid)
      ensures matched ==> old(clock.last).Nanos() <= clock.last.Nanos()
      ensures !matched ==> clock.last == old(clock.last) && renewed == deadline
      ensures matched ==> renewed.Nanos() == clock.last.Nanos() + expiry.Nanos()
      ensures current.next == old(current.next)
      ensures !matched ==> current.item == old(current.item)
      ensures l < |entries.nodes| ==> entries.nodes[l] == old(At(entries.head, entries.nodes, k + 1))
      ensures l == |entries.nodes| ==> k + 1 == old(|entries.nodes|)
    {
      hide Ring, ItemsOf, RemoveAt, Walk, Kept, Keep, Partly, Spliced;
      WalkKeep(entries.nodes, k, all, i);
      WalkDrop(entries.nodes, k, all, i);
      PartlyStep(was, i, pid, now, deadline, falls);
      ghost var before := entries.Items();
      ghost var removed, d;
      matched, removed, d := Visit(current, pid, now, k);
      renewed := if matched then d else deadline;
      if matched {
        PartlyAny(was, i, pid, now, deadline, renewed, falls);
        PartlySame(was, i, pid, now, deadline, renewed, falls);
        PartlyStep(was, i, pid, now, renewed, falls);
      } else {
        KeepOther(was[i], pid, now, d, deadline, falls);
      }
      KeepSize(was[i], pid, now, renewed, falls);
      l := if removed then k else k + 1;
    }

    /** The loop of both lookups. `m` is the position of the entry asked for. */
    method Sweep(pid: int, now: Time, ghost was: seq<CacheEntry>)
      returns (found: ListNode?<CacheEntry>, ghost m: nat, ghost deadline: Time)
      requires Valid() && now.Normal() && was == entries.Items()
      modifies entries`nodes, entries.head`next, entries.head`prev, entries.nodes`next, entries.nodes`prev,
               entries.nodes`item, clock
      ensures entries.Valid() && clock.Valid() && deadline.Normal()
              && entries.Items() == Kept(was, pid, now, deadline, falls)
      ensures found == null <==> forall j :: 0 <= j < |was| ==> was[j].pid != pid
      ensures found != null ==>
              m < |was| && was[m].pid == pid && found == old(entries.nodes)[m] && found.item.pid == pid
      ensures found != null ==>
              old(clock.last).Nanos() <= clock.last.Nanos() && deadline.Nanos() == clock.last.Nanos() + expiry.Nanos()
      ensures found == null ==> clock.last == old(clock.last)
      ensures forall j :: 0 <= j < |entries.nodes| ==> entries.nodes[j] in old(entries.nodes)
      ensures forall j :: 0 <= j < |was| ==> old(entries.nodes)[j].item == was[j] || old(entries.nodes)[j] == found
    {
      hide *;
      ghost var all := entries.nodes;
      StartSweeping(was, pid, now);
      SweepingParts(was, all, 0, 0, pid, now, now);
      entries.AtIs(0);
      entries.AtIs(1);
      var current := entries.head.next;
      var next := current.next;
      found, m, deadline := null, 0, now;
      ghost var i: nat, k: nat := 0, 0;
      while current != entries.head
        invariant Sweeping(was, all, i, k, pid, now, deadline)
        invariant entries.Valid() && i <= |all| == |was| && k <= |entries.nodes|
        invariant current == At(entries.head, entries.nodes, k)
        invariant k < |entries.nodes| ==> next == At(entries.head, entries.nodes, k + 1)
        invariant found == null <==> forall j :: 0 <= j < i ==> was[j].pid != pid
        invariant found != null ==> m < i && was[m].pid == pid && found == all[m]
        invariant found != null ==>
                  old(clock.last).Nanos() <= clock.last.Nanos()
                    && deadline.Nanos() == clock.last.Nanos() + expiry.Nanos()
        invariant found == null ==> clock.last == old(clock.last)
        invariant forall j :: 0 <= j < |was| ==> all[j].item == was[j] || all[j] == found
        decreases |all| - i
      {
        SweepingParts(was, all, i, k, pid, now, deadline);
        entries.AtIs(k);
        entries.AtIs(k + 1);
        OnlyOne(was, i, pid);
        var hit;
        hit, k, deadline := Round(current, pid, now, deadline, was, all, i, k);
        if hit {
          found, m := current, i;
        }
        i := i + 1;
        SweepingParts(was, all, i, k, pid, now, deadline);
        entries.AtIs(k);
        entries.AtIs(k + 1);
        current := next;
        next := next.next;
      }
      entries.AtIs(k);
      SweepingParts(was, all, i, k, pid, now, deadline);
      SweepingPids(was, all, i, k, pid, now, deadline);
    }

    lemma SweepingPids(was: seq<CacheEntry>, all: seq<ListNode<CacheEntry>>, i: nat, k: nat,
                       pid: int, now: Time, deadline: Time)
      requires Sweeping(was, all, i, k, pid, now, deadline)
      ensures deadline.Normal() && |was| == |all| && forall j :: 0 <= j < |all| ==> all[j].item.pid == was[j].pid
    {
    }

    lemma StartSweeping(was: seq<CacheEntry>, pid: int, now: Time)
      requires Valid() && now.Normal() && was == entries.Items()
      ensures Sweeping(was, entries.nodes, 0, 0, pid, now, now)
      ensures Sound(was) && forall j :: 0 <= j < |was| ==> entries.nodes[j].item == was[j]
    {
      hide Ring, ItemsOf, Walk, Partly;
      WalkStart(entries.nodes);
      PartlyEnds(was, pid, now, now, falls);
    }

    /** `memmkcache_entry_create` and `meminscache_entry_create` */
    method EntryCreate(pid: int) returns (entry: ListNode<CacheEntry>)
      requires Valid() && pid !in Abs()
      modifies entries`nodes, entries.head`next, entries.head`prev, entries.nodes`next, entries.nodes`prev, clock
      ensures Valid() && fresh(entry) && entries.nodes == InsertAt(old(entries.nodes), |old(entries.nodes)|, entry)
      ensures forall j :: 0 <= j < |entries.nodes| ==>
              entries.nodes[j] in old(entries.nodes) || entries.nodes[j] == entry
      ensures entry in entries.nodes
      ensures old(clock.last).Nanos() <= clock.last.Nanos() && entry.item.pid == pid
      ensures Abs() == old(Abs())[pid := clock.last.Nanos() + expiry.Nanos()]
    {
      hide Ring, ItemsOf, Sound, TableOf;
      ghost var before := entries.Items();
      var deadline := clock.In(expiry);
      entry := new ListNode.Record(CacheEntry(pid, deadline));
      entries.AddBefore(entries.head, entry, |entries.nodes|);
      Appended(before, entry.item);
    }

    /** The reading of the clock and the sweep. */
    method Look(pid: int) returns (found: ListNode?<CacheEntry>, ghost now: int)
      requires Valid()
      modifies entries`nodes, entries.head`next, entries.head`prev, entries.nodes`next, entries.nodes`prev,
               entries.nodes`item, clock
      ensures Valid() && old(clock.last).Nanos() <= now <= clock.last.Nanos()
      ensures found == null <==> pid !in old(Abs())
      ensures found == null ==> Abs() == Swept(old(Abs()), pid, now)
      ensures found != null ==> Abs() == After(old(Abs()), pid, now, clock.last.Nanos() + expiry.Nanos(), falls)
      ensures found != null ==> found in old(entries.nodes) && old(found.item.pid) == pid == found.item.pid
      ensures found != null ==> forall j :: 0 <= j < |old(entries.nodes)| ==>
                old(entries.nodes)[j] == found || old(entries.nodes[j].item.pid) != pid
      ensures forall j :: 0 <= j < |entries.nodes| ==> entries.nodes[j] in old(entries.nodes)
      ensures forall j :: 0 <= j < |old(entries.nodes)| ==>
                old(entries.nodes)[j] == found || old(entries.nodes)[j].item == old(entries.nodes[j].item)
    {
      hide Ring, ItemsOf, Sound, TableOf, Kept, After, Swept;
      ghost var was := entries.Items();
      var reading := clock.Now();
      now := reading.Nanos();
      ghost var m, deadline;
      OthersDiffer(was, pid);
      found, m, deadline := Sweep(pid, reading, was);
      SweptIs(was, pid, reading, deadline, falls);
    }

    /** `memmkcache_get` and `meminscache_get`: the sweep reads `now`, the deadline is set to the
        expiry time after the last reading of the clock. A process that had an entry gets that
        entry. Reading an entry that is no longer listed has no defined behaviour. */
    method Get(pid: int) returns (found: ListNode<CacheEntry>, ghost now: int)
      requires Valid()
      modifies entries`nodes, entries.head`next, entries.head`prev, entries.nodes`next, entries.nodes`prev,
               entries.nodes`item, clock
      ensures Valid() && found.item.pid == pid
      ensures old(clock.last).Nanos() <= now <= clock.last.Nanos()
      ensures Abs() == After(old(Abs()), pid, now, clock.last.Nanos() + expiry.Nanos(), falls)
      ensures if pid in old(Abs()) then found in old(entries.nodes) && old(found.item.pid) == pid else fresh(found)
      ensures found !in entries.nodes <==>
                falls && pid in old(Abs()) && clock.last.Nanos() + expiry.Nanos() <= now
      ensures forall j :: 0 <= j < |entries.nodes| ==>
              entries.nodes[j] in old(entries.nodes) || entries.nodes[j] == found
      ensures forall j :: 0 <= j < |old(entries.nodes)| ==>
                old(entries.nodes)[j] == found || old(entries.nodes)[j].item == old(entries.nodes[j].item)
    {
      hide *;
      ghost var before := Abs();
      var known;
      known, now := Look(pid);
      if known == null {
        AddedIs(before, pid, now, 0, falls);
        found := EntryCreate(pid);
        AddedIs(before, pid, now, clock.last.Nanos() + expiry.Nanos(), falls);
      } else {
        found := known;
        StillListed(found, pid);
        AfterIs(before, pid, now, clock.last.Nanos() + expiry.Nanos(), falls);
      }
    }

    lemma StillListed(found: ListNode<CacheEntry>, pid: int)
      requires Valid() && found.item.pid == pid
      requires forall j :: 0 <= j < |entries.nodes| ==> entries.nodes[j] == found || entries.nodes[j].item.pid != pid
      ensures found in entries.nodes <==> pid in Abs()
    {
      hide Ring, Sound;
      var items := entries.Items();
      if pid in Abs() {
        var i := MapByFind(items, PidOf, DeadlineOf, pid);
        assert items[i].pid == pid;
      }
      if found in entries.nodes {
        var i :| 0 <= i < |entries.nodes| && entries.nodes[i] == found;
        MapByPresent(items, PidOf, DeadlineOf, i);
      }
    }
  }

  lemma SweptIs(was: seq<CacheEntry>, pid: int, now: Time, deadline: Time, falls: bool)
    requires Sound(was) && now.Normal() && deadline.Normal()
    ensures Sound(Kept(was, pid, now, deadline, falls))
    ensures var t := TableOf(was);
            && (pid in t <==> exists j :: 0 <= j < |was| && was[j].pid == pid)
            && TableOf(Kept(was, pid, now, deadline, falls)) ==
               if pid in t then After(t, pid, now.Nanos(), deadline.Nanos(), falls) else Swept(t, pid, now.Nanos())
  {
    hide Kept;
    KeptIsSwept(was, pid, now, deadline, falls);
    if pid in TableOf(was) {
      var j := MapByFind(was, PidOf, DeadlineOf, pid);
      assert was[j].pid == pid;
    } else {
      forall j | 0 <= j < |was|
        ensures was[j].pid != pid
      {
        MapByPresent(was, PidOf, DeadlineOf, j);
      }
    }
  }

  lemma OthersDiffer(was: seq<CacheEntry>, pid: int)
    requires Sound(was)
    ensures forall i, j :: 0 <= i < |was| && 0 <= j < |was| && i != j && was[i].pid == pid ==> was[j].pid != pid
  {
    forall i, j | 0 <= i < |was| && 0 <= j < |was| && i != j && was[i].pid == pid
      ensures was[j].pid != pid
    {
      assert PidOf(was[i]) != PidOf(was[j]);
    }
  }

  lemma AfterIs(t: Table, pid: int, now: int, deadline: int, falls: bool)
    ensures pid !in After(t, pid, now, deadline, falls) <==> falls && pid in t && deadline <= now
  {
  }

  lemma AddedIs(t: Table, pid: int, now: int, deadline: int, falls: bool)
    ensures pid !in Swept(t, pid, now)
    ensures pid !in t ==> After(t, pid, now, deadline, falls) == Swept(t, pid, now)[pid := deadline]
  {
  }

  lemma Appended(entries: seq<CacheEntry>, e: CacheEntry)
    requires Sound(entries) && e.pid !in TableOf(entries) && e.deadline.Normal()
    ensures Sound(InsertAt(entries, |entries|, e))
    ensures TableOf(InsertAt(entries, |entries|, e)) == TableOf(entries)[e.pid := e.deadline.Nanos()]
  {
    SoundAppend(entries, e);
    assert InsertAt(entries, |entries|, e) == entries + [e];
  }

  lemma OnlyOne(was: seq<CacheEntry>, i: nat, pid: int)
    requires Sound(was)
    ensures i < |was| && was[i].pid == pid ==> forall j :: 0 <= j < i ==> was[j].pid != pid
  {
    if i < |was| && was[i].pid == pid {
      forall j | 0 <= j < i
        ensures was[j].pid != pid
      {
        assert PidOf(was[j]) != PidOf(was[i]);
      }
    }
  }

  lemma PartlySame(was: seq<CacheEntry>, i: nat, pid: int, now: Time, d: Time, e: Time, falls: bool)
    requires i <= |was| && Kept(was[..i], pid, now, d, falls) == Kept(was[..i], pid, now, e, falls)
    ensures Partly(was, i, pid, now, d, falls) == Partly(was, i, pid, now, e, falls)
  {
  }

  lemma KeepOther(e: CacheEntry, pid: int, now: Time, d: Time, d': Time, falls: bool)
    requires e.pid != pid
    ensures Keep(e, pid, now, d, falls) == Keep(e, pid, now, d', falls)
  {
  }

  lemma KeepSize(e: CacheEntry, pid: int, now: Time, deadline: Time, falls: bool)
    ensures |Keep(e, pid, now, deadline, falls)| == if Keep(e, pid, now, deadline, falls) == [] then 0 else 1
  {
  }
}
