/** The process affinity table of `procaff.c` on its linked lists. Every method is tied to the
    operation of the same name on plain values in `AffinityModel`. */
module Affinity {
  import opened Options
  import opened Timespec
  import opened IntrusiveList
  import opened Keyed
  import opened AffinityModel
  import opened AffinitySweep

  datatype ProcaffGroup = ProcaffGroup(id: int, expiry: Time, sticky: bool, cores: set<int>)

  datatype ProcaffProcess = ProcaffProcess(pid: int, deadline: Time, group: int)

  function IdOf(g: ProcaffGroup): int { g.id }

  function GroupOf(g: ProcaffGroup): Group { Group(g.expiry.Nanos(), g.sticky, g.cores) }

  function PidOf(p: ProcaffProcess): int { p.pid }

  function EntryOf(p: ProcaffProcess): Tracked { Tracked(p.group, p.deadline.Nanos()) }

  function Ids(gs: seq<ProcaffGroup>): seq<int> { seq(|gs|, i requires 0 <= i < |gs| => gs[i].id) }

  function GroupTable(gs: seq<ProcaffGroup>): map<int, Group> { MapBy(gs, IdOf, GroupOf) }

  function ProcessTable(ps: seq<ProcaffProcess>): map<int, Tracked> { MapBy(ps, PidOf, EntryOf) }

  /** Ids and pids occur once, times are normal and every process's group is listed. */
  ghost predicate Sound(gs: seq<ProcaffGroup>, ps: seq<ProcaffProcess>) {
    && Unique(gs, IdOf) && Unique(ps, PidOf)
    && (forall i :: 0 <= i < |gs| ==> gs[i].expiry.Normal())
    && (forall i :: 0 <= i < |ps| ==> ps[i].deadline.Normal() && ps[i].group in GroupTable(gs))
  }

  lemma SoundRemove(gs: seq<ProcaffGroup>, ps: seq<ProcaffProcess>, k: nat)
    requires Sound(gs, ps) && k < |ps|
    ensures Sound(gs, RemoveAt(ps, k))
    ensures ps[k].pid in ProcessTable(ps) && ProcessTable(RemoveAt(ps, k)) == ProcessTable(ps) - {ps[k].pid}
  {
    MapByPresent(ps, PidOf, EntryOf, k);
    MapByRemove(ps, PidOf, EntryOf, k);
  }

  lemma SoundUpdate(gs: seq<ProcaffGroup>, ps: seq<ProcaffProcess>, k: nat, p: ProcaffProcess)
    requires Sound(gs, ps) && k < |ps| && p.pid == ps[k].pid && p.deadline.Normal() && p.group in GroupTable(gs)
    ensures Sound(gs, ps[k := p])
    ensures p.pid in ProcessTable(ps) && ProcessTable(ps[k := p]) == ProcessTable(ps)[p.pid := EntryOf(p)]
  {
    assert PidOf(p) == PidOf(ps[k]);
    MapByPresent(ps, PidOf, EntryOf, k);
    MapByUpdate(ps, PidOf, EntryOf, k, p);
  }

  function Pids(ps: seq<ProcaffProcess>): seq<int> { seq(|ps|, i requires 0 <= i < |ps| => ps[i].pid) }

  lemma PidsListed(gs: seq<ProcaffGroup>, ps: seq<ProcaffProcess>, s: State)
    requires Sound(gs, ps) && s.tracked == ProcessTable(ps)
    ensures Lists(Pids(ps), s)
  {
    var pids := Pids(ps);
    forall i, j | 0 <= i < j < |pids|
      ensures pids[i] != pids[j]
    {
      assert PidOf(ps[i]) != PidOf(ps[j]);
    }
    forall q | q in s.tracked
      ensures q in pids
    {
      var i := MapByFind(ps, PidOf, EntryOf, q);
      assert pids[i] == q;
    }
    forall q | q in pids
      ensures q in s.tracked
    {
      var i :| 0 <= i < |pids| && pids[i] == q;
      MapByPresent(ps, PidOf, EntryOf, i);
    }
  }

  lemma SoundAppend(gs: seq<ProcaffGroup>, ps: seq<ProcaffProcess>, p: ProcaffProcess)
    requires Sound(gs, ps) && p.pid !in ProcessTable(ps) && p.deadline.Normal() && p.group in GroupTable(gs)
    ensures Sound(gs, InsertAt(ps, |ps|, p))
    ensures ProcessTable(InsertAt(ps, |ps|, p)) == ProcessTable(ps)[p.pid := EntryOf(p)]
  {
    MapByInsert(ps, PidOf, EntryOf, |ps|, p);
  }

  lemma SoundCreate(gs: seq<ProcaffGroup>, ps: seq<ProcaffProcess>, g: ProcaffGroup)
    requires Sound(gs, ps) && g.id !in GroupTable(gs) && g.expiry.Normal()
    ensures Sound(InsertAt(gs, 0, g), ps)
    ensures GroupTable(InsertAt(gs, 0, g)) == GroupTable(gs)[g.id := GroupOf(g)]
    ensures Ids(InsertAt(gs, 0, g)) == [g.id] + Ids(gs)
  {
    MapByInsert(gs, IdOf, GroupOf, 0, g);
  }

  lemma {:induction false} IdsRemove(gs: seq<ProcaffGroup>, k: nat)
    requires Unique(gs, IdOf) && k < |gs|
    ensures Ids(RemoveAt(gs, k)) == Without(Ids(gs), gs[k].id)
  {
    assert IdOf(gs[0]) == gs[0].id && IdOf(gs[k]) == gs[k].id;
    assert Ids(gs)[1..] == Ids(gs[1..]);
    if k == 0 {
      assert RemoveAt(gs, 0) == gs[1..];
      forall i | 0 <= i < |gs[1..]|
        ensures Ids(gs[1..])[i] != gs[0].id
      {
        assert IdOf(gs[i + 1]) != IdOf(gs[0]);
      }
      WithoutAbsent(Ids(gs[1..]), gs[0].id);
    } else {
      IdsRemove(gs[1..], k - 1);
      assert IdOf(gs[0]) != IdOf(gs[k]);
      assert RemoveAt(gs, k) == [gs[0]] + RemoveAt(gs[1..], k - 1);
      assert Ids(RemoveAt(gs, k)) == [gs[0].id] + Ids(RemoveAt(gs[1..], k - 1));
    }
  }

  lemma SoundDestroy(gs: seq<ProcaffGroup>, ps: seq<ProcaffProcess>, k: nat)
    requires Sound(gs, ps) && k < |gs|
    requires forall q :: q in ProcessTable(ps) ==> ProcessTable(ps)[q].group != gs[k].id
    ensures Sound(RemoveAt(gs, k), ps)
    ensures GroupTable(RemoveAt(gs, k)) == GroupTable(gs) - {gs[k].id}
    ensures Ids(RemoveAt(gs, k)) == Without(Ids(gs), gs[k].id)
  {
    MapByRemove(gs, IdOf, GroupOf, k);
    IdsRemove(gs, k);
    forall i | 0 <= i < |ps|
      ensures ps[i].group in GroupTable(RemoveAt(gs, k))
    {
      MapByPresent(ps, PidOf, EntryOf, i);
      assert ProcessTable(ps)[PidOf(ps[i])].group == ps[i].group;
    }
  }

  lemma SoundRegroup(gs: seq<ProcaffGroup>, ps: seq<ProcaffProcess>, k: nat, g: ProcaffGroup)
    requires Sound(gs, ps) && k < |gs| && g.id == gs[k].id && g.expiry.Normal()
    ensures Sound(gs[k := g], ps)
    ensures g.id in GroupTable(gs) && GroupTable(gs[k := g]) == GroupTable(gs)[g.id := GroupOf(g)]
    ensures Ids(gs[k := g]) == Ids(gs)
  {
    assert IdOf(g) == IdOf(gs[k]);
    MapByPresent(gs, IdOf, GroupOf, k);
    MapByUpdate(gs, IdOf, GroupOf, k, g);
  }

  class ProcaffContext {
    const groups: List<ProcaffGroup>
    const processes: List<ProcaffProcess>
    var defaultGroup: ListNode?<ProcaffGroup>
    /** The kernel's side: the mask last requested for each process. */
    var mask: map<int, set<int>>
    const clock: Clock
    const online: nat

    ghost predicate Valid()
      reads this, groups, groups.head, groups.nodes, processes, processes.head, processes.nodes, clock
    {
      && groups.Valid() && processes.Valid() && clock.Valid()
      && (defaultGroup != null ==> defaultGroup in groups.nodes)
      && Sound(groups.Items(), processes.Items())
    }

    /** The table as a value. */
    ghost function Abs(): State
      reads this, groups, groups.nodes, processes, processes.nodes, clock, defaultGroup
    {
      State(Ids(groups.Items()),
            GroupTable(groups.Items()),
            ProcessTable(processes.Items()),
            if defaultGroup == null then None else Some(defaultGroup.item.id),
            mask, clock.last.Nanos(), online)
    }

    constructor (clock: Clock, online: nat)
      requires clock.Valid()
      ensures Valid() && fresh(groups) && fresh(groups.head) && fresh(processes) && fresh(processes.head)
      ensures this.clock == clock && groups.nodes == [] && processes.nodes == []
      ensures Abs() == Initial(clock.last.Nanos(), online)
    {
      groups := new List();
      processes := new List();
      defaultGroup := null;
      mask := map[];
      this.clock := clock;
      this.online := online;
    }

    method GroupExists(id: int) returns (found: ListNode?<ProcaffGroup>, ghost k: nat)
      requires Valid()
      ensures found == null <==> id !in Abs().groups
      ensures found != null ==> k < |groups.nodes| && groups.nodes[k] == found && found.item.id == id
      ensures found != null ==>
              Abs().groups[id] == GroupOf(found.item) && found.item.expiry.Normal() && found in groups.nodes
    {
      hide Ring, Sound, ItemsOf, MapBy;
      ghost var gs := groups.Items();
      groups.AtIs(0);
      var current := groups.head.next;
      found, k := null, 0;
      while current != groups.head
        invariant k <= |groups.nodes| && current == At(groups.head, groups.nodes, k)
        invariant forall i :: 0 <= i < k ==> gs[i].id != id
        decreases |groups.nodes| - k
      {
        if current.item.id == id {
          found := current;
          break;
        }
        groups.AtIs(k + 1);
        current := current.next;
        k := k + 1;
      }
      groups.AtIs(k);
      if found == null {
        assert forall i :: 0 <= i < |gs| ==> IdOf(gs[i]) != id;
        MapByAbsent(gs, IdOf, GroupOf, id);
      } else {
        GroupNode(found);
      }
    }

    method ProcessKnown(pid: int) returns (found: ListNode?<ProcaffProcess>, ghost k: nat)
      requires Valid()
      ensures found == null <==> pid !in Abs().tracked
      ensures found != null ==> k < |processes.nodes| && processes.nodes[k] == found && found.item.pid == pid
    {
      hide Ring, Sound, ItemsOf, MapBy;
      ghost var ps := processes.Items();
      processes.AtIs(0);
      var current := processes.head.next;
      found, k := null, 0;
      while current != processes.head
        invariant k <= |processes.nodes| && current == At(processes.head, processes.nodes, k)
        invariant forall i :: 0 <= i < k ==> ps[i].pid != pid
        decreases |processes.nodes| - k
      {
        if current.item.pid == pid {
          found := current;
          break;
        }
        processes.AtIs(k + 1);
        current := current.next;
        k := k + 1;
      }
      processes.AtIs(k);
      if found == null {
        assert forall i :: 0 <= i < |ps| ==> PidOf(ps[i]) != pid;
        MapByAbsent(ps, PidOf, EntryOf, pid);
      } else {
        ProcessNode(found, k);
      }
    }

    /** `sched_setaffinity` */
    method PolicySet(pid: int, cores: set<int>)
      modifies this`mask
      ensures mask == old(mask)[pid := cores]
    {
      mask := mask[pid := cores];
    }

    method PolicyReset(pid: int)
      modifies this`mask
      ensures mask == old(mask)[pid := AllOnline(online)]
    {
      var cores := {};
      for cpuid := 0 to online
        invariant cores == AllOnline(cpuid)
      {
        cores := WithCpu(cores, cpuid);
      }
      PolicySet(pid, cores);
    }

    method DestroyProcess(process: ListNode<ProcaffProcess>, ghost k: nat)
      requires Valid() && k < |processes.nodes| && processes.nodes[k] == process
      modifies this`mask, processes`nodes, processes.head`next, processes.head`prev, processes.nodes`next,
               processes.nodes`prev
      ensures Valid() && processes.nodes == RemoveAt(old(processes.nodes), k)
      ensures process.next == old(process.next)
      ensures Abs() == AfterUnassign(old(Abs()), process.item.pid)
      ensures process.item.pid in old(Abs()).tracked
    {
      hide RemoveAt, Sound, ItemsOf, MapBy;
      ghost var ps := processes.Items();
      processes.Remove(process, k);
      PolicyReset(process.item.pid);
      SoundRemove(groups.Items(), ps, k);
    }

    /** `procaff_process_update`: whether the group changed. */
    method UpdateProcess(process: ListNode<ProcaffProcess>, group: int, expiry: Time, ghost k: nat)
      returns (changed: bool)
      requires Valid() && k < |processes.nodes| && processes.nodes[k] == process
      requires group in Abs().groups && expiry.Normal()
      modifies process`item, clock
      ensures Valid()
      ensures changed <==> group != old(process.item.group)
      ensures process.item.pid == old(process.item.pid) && process.item.pid in old(Abs()).tracked
      ensures old(Abs()).now <= Abs().now
      ensures Abs() == old(Abs()).(now := Abs().now,
                                   tracked := old(Abs()).tracked[process.item.pid :=
                                     Tracked(group, Abs().now + expiry.Nanos())])
    {
      hide RemoveAt, Sound, ItemsOf, MapBy;
      ghost var ps := processes.Items();
      var prev := process.item.group;
      var deadline := clock.In(expiry);
      processes.Update(process, process.item.(group := group, deadline := deadline), k);
      SoundUpdate(groups.Items(), ps, k, process.item);
      changed := group != prev;
    }

    /** A group node stands for its entry of the table. */
    lemma GroupNode(g: ListNode<ProcaffGroup>)
      requires Valid() && g in groups.nodes
      ensures g.item.expiry.Normal()
      ensures g.item.id in Abs().groups && Abs().groups[g.item.id] == GroupOf(g.item)
    {
      var k :| 0 <= k < |groups.nodes| && groups.nodes[k] == g;
      assert IdOf(groups.Items()[k]) == g.item.id;
      MapByPresent(groups.Items(), IdOf, GroupOf, k);
    }

    /** A process node stands for its entry of the table. */
    lemma ProcessNode(p: ListNode<ProcaffProcess>, k: nat)
      requires Valid() && k < |processes.nodes| && processes.nodes[k] == p
      ensures p.item.deadline.Normal()
      ensures p.item.pid in Abs().tracked && Abs().tracked[p.item.pid] == EntryOf(p.item)
      ensures p.item.group in Abs().groups
    {
      assert PidOf(processes.Items()[k]) == p.item.pid;
      MapByPresent(processes.Items(), PidOf, EntryOf, k);
    }

    /** An expired process moves to the default group; a member of the default group, or any
        process when there is no default, is dropped. */
    method ExpireProcess(process: ListNode<ProcaffProcess>, ghost k: nat) returns (ghost removed: bool)
      requires Valid() && k < |processes.nodes| && processes.nodes[k] == process
      modifies this`mask, processes`nodes, processes.head`next, processes.head`prev, processes.nodes`next,
               processes.nodes`prev,
               process`item, clock
      ensures Valid() && process.next == old(process.next)
      ensures process.item.pid == old(process.item.pid)
      ensures processes.nodes == if removed then RemoveAt(old(processes.nodes), k) else old(processes.nodes)
      ensures var s, q := old(Abs()), process.item.pid;
              && q in s.tracked
              && removed == (s.fallback.None? || s.fallback.value == s.tracked[q].group)
              && (removed ==> Abs() == AfterUnassign(s, q))
              && (!removed ==>
                    && s.fallback.value in s.groups && s.now <= Abs().now
                    && var dg := s.groups[s.fallback.value];
                    Abs() == s.(now := Abs().now,
                                tracked := s.tracked[q := Tracked(s.fallback.value, Abs().now + dg.expiry)],
                                mask := s.mask[q := dg.cores]))
    {
      hide RemoveAt, Sound, ItemsOf, MapBy;
      ProcessNode(process, k);
      var dg := defaultGroup;
      removed := false;
      if dg != null {
        GroupNode(dg);
      }
      if dg != null && dg.item.id != process.item.group {
        var changed := UpdateProcess(process, dg.item.id, dg.item.expiry, k);
        PolicySet(process.item.pid, dg.item.cores);
      } else {
        DestroyProcess(process, k);
        removed := true;
      }
    }

    method CreateGroup(id: int, expiry: Time, sticky: bool) returns (ok: bool)
      requires Valid() && expiry.Normal()
      modifies groups`nodes, groups.head`next, groups.head`prev, groups.nodes`next, groups.nodes`prev
      ensures Valid() && ok == (id !in old(Abs()).groups)
      ensures Abs() == AfterCreate(old(Abs()), id, expiry.Nanos(), sticky)
      ensures forall n :: n in groups.nodes ==> n in old(groups.nodes) || fresh(n)
    {
      hide Valid, Abs;
      var known, k := GroupExists(id);
      if known != null {
        return false;
      }
      var group := new ListNode.Record(ProcaffGroup(id, expiry, sticky, {}));
      LinkGroup(group);
      ok := true;
    }

    method LinkGroup(group: ListNode<ProcaffGroup>)
      requires Valid() && group.item.id !in Abs().groups && group !in groups.nodes && group != groups.head
      requires group.item.expiry.Normal()
      modifies groups`nodes, groups.head`next, groups.head`prev, groups.nodes`next, groups.nodes`prev, group`next,
               group`prev
      ensures Valid()
      ensures forall n :: n in groups.nodes ==> n in old(groups.nodes) || n == group
      ensures Abs() == old(Abs()).(order := [group.item.id] + old(Abs()).order,
                                   groups := old(Abs()).groups[group.item.id := GroupOf(group.item)])
    {
      hide Ring, Sound, ItemsOf, MapBy;
      SoundCreate(groups.Items(), processes.Items(), group.item);
      groups.AddAfter(groups.head, group, 0);
    }

    method DefaultGroup(id: int) returns (ok: bool)
      requires Valid()
      modifies this`defaultGroup
      ensures Valid() && ok == (id in Abs().groups)
      ensures Abs() == AfterDefault(old(Abs()), id)
    {
      hide Ring, Sound, ItemsOf, MapBy;
      var g, k := GroupExists(id);
      defaultGroup := g;
      ok := g != null;
    }

    method CpuAssignee(cpu: int) returns (owner: int)
      requires Valid()
      ensures owner == Owner(Abs().order, Abs().groups, cpu)
    {
      hide Ring, Sound, ItemsOf, MapBy;
      groups.AtIs(0);
      var current := groups.head.next;
      ghost var k := 0;
      ghost var order := Abs().order;
      while current != groups.head
        invariant k <= |groups.nodes| && current == At(groups.head, groups.nodes, k)
        invariant |order| == |groups.nodes| && order == Abs().order
        invariant Owner(order, Abs().groups, cpu) == Owner(order[k..], Abs().groups, cpu)
        decreases |groups.nodes| - k
      {
        GroupNode(current);
        assert order[k] == current.item.id;
        if cpu in current.item.cores {
          return current.item.id;
        }
        assert order[k..][1..] == order[k + 1..];
        groups.AtIs(k + 1);
        current := current.next;
        k := k + 1;
      }
      groups.AtIs(k);
      owner := -1;
    }

    method AssignCore(id: int, cpu: int) returns (ok: bool)
      requires Valid()
      modifies groups.nodes`item
      ensures Valid()
      ensures var s := old(Abs());
              ok == (id in s.groups && Owner(s.order, s.groups, cpu) < 0 && cpu !in s.groups[id].cores)
      ensures Abs() == AfterCore(old(Abs()), id, cpu)
    {
      hide Ring, Sound, ItemsOf, MapBy;
      var g, k := GroupExists(id);
      if g == null {
        return false;
      }
      var assignedTo := CpuAssignee(cpu);
      if assignedTo >= 0 {
        return false;
      }
      if cpu in g.item.cores {
        return false;
      }
      SetCores(g, WithCpu(g.item.cores, cpu), k);
      ok := true;
    }

    method UnassignCore(id: int, cpu: int) returns (ok: bool)
      requires Valid()
      modifies groups.nodes`item
      ensures Valid()
      ensures var s := old(Abs());
              ok == (id in s.groups && Owner(s.order, s.groups, cpu) < 0 && cpu in s.groups[id].cores)
      ensures Abs() == AfterUncore(old(Abs()), id, cpu)
    {
      hide Ring, Sound, ItemsOf, MapBy;
      var g, k := GroupExists(id);
      if g == null {
        return false;
      }
      var assignedTo := CpuAssignee(cpu);
      if assignedTo >= 0 {
        return false;
      }
      if cpu !in g.item.cores {
        return false;
      }
      SetCores(g, g.item.cores - {cpu}, k);
      ok := true;
    }

    method SetCores(g: ListNode<ProcaffGroup>, cores: set<int>, ghost k: nat)
      requires Valid() && k < |groups.nodes| && groups.nodes[k] == g
      modifies g`item
      ensures Valid()
      ensures g.item.id == old(g.item.id) && g.item.id in old(Abs()).groups
      ensures var s := old(Abs());
              g.item.id in s.groups
              && Abs() == s.(groups := s.groups[g.item.id := s.groups[g.item.id].(cores := cores)])
    {
      hide Ring, Sound, ItemsOf, MapBy;
      GroupNode(g);
      ghost var s := Abs();
      var item := g.item.(cores := cores);
      SoundRegroup(groups.Items(), processes.Items(), k, item);
      groups.Update(g, item, k);
      assert defaultGroup != null ==> defaultGroup.item.id == old(defaultGroup.item.id);
    }

    method ProcessUnassign(pid: int) returns (ok: bool)
      requires Valid()
      modifies this`mask, processes`nodes, processes.head`next, processes.head`prev, processes.nodes`next,
               processes.nodes`prev
      ensures Valid() && ok == (pid in old(Abs()).tracked)
      ensures Abs() == AfterUnassign(old(Abs()), pid)
    {
      hide Ring, Sound, ItemsOf, MapBy, RemoveAt;
      var process, k := ProcessKnown(pid);
      if process == null {
        return false;
      }
      DestroyProcess(process, k);
      ok := true;
    }

    method ProcessGet(pid: int) returns (group: Option<int>)
      requires Valid()
      ensures group == if pid in Abs().tracked then Some(Abs().tracked[pid].group) else None
    {
      hide Ring, Sound, ItemsOf, MapBy, RemoveAt;
      var process, k := ProcessKnown(pid);
      if process == null {
        return None;
      }
      ProcessNode(process, k);
      group := Some(process.item.group);
    }

    lemma ProcessesListed()
      requires Valid()
      ensures Lists(Pids(processes.Items()), Abs())
      ensures |Pids(processes.Items())| == |processes.nodes|
      ensures forall i :: 0 <= i < |processes.nodes| ==> processes.nodes[i].item.pid == Pids(processes.Items())[i]
    {
      PidsListed(groups.Items(), processes.Items(), Abs());
    }

    /** The removal of a group's members is past `i` of the processes `all` it started with,
        which had `pids`; `k` of them are still listed. */
    ghost predicate Draining(s: State, pids: seq<int>, all: seq<ListNode<ProcaffProcess>>, i: nat, k: nat, id: int)
      reads this, groups, groups.head, groups.nodes, processes, processes.head, processes.nodes, clock, all
    {
      && Valid()
      && Lists(pids, s) && |pids| == |all| && i <= |all| && k <= |processes.nodes|
      && Walk(processes.nodes, k, all, i)
      && (forall j :: 0 <= j < |all| ==> all[j].item.pid == pids[j])
      && Drained(s, Abs(), pids, i, id)
    }

    lemma DrainingParts(s: State, pids: seq<int>, all: seq<ListNode<ProcaffProcess>>, i: nat, k: nat, id: int)
      requires Draining(s, pids, all, i, k, id)
      ensures Valid() && processes.Valid() && |pids| == |all| && i <= |all| && k <= |processes.nodes|
      ensures forall j :: 0 <= j < |processes.nodes| ==> processes.nodes[j] in all
      ensures k == |processes.nodes| <==> i == |all|
      ensures Lists(pids, s) && Drained(s, Abs(), pids, i, id)
    {
      hide Ring, Sound, ItemsOf, MapBy, Abs, Drained, Lists;
      WalkWithin(processes.nodes, k, all, i);
    }

    method DrainRound(current: ListNode<ProcaffProcess>, id: int,
                      ghost s: State, ghost pids: seq<int>, ghost all: seq<ListNode<ProcaffProcess>>, ghost i: nat,
                      ghost k: nat)
      returns (ghost l: nat)
      requires Draining(s, pids, all, i, k, id)
      requires k < |processes.nodes| && processes.nodes[k] == current
      modifies this`mask, processes`nodes, processes.head`next, processes.head`prev, processes.nodes`next,
               processes.nodes`prev
      ensures i < |all| && Draining(s, pids, all, i + 1, l, id)
      ensures current.next == old(current.next)
      ensures l < |processes.nodes| ==> processes.nodes[l] == old(At(processes.head, processes.nodes, k + 1))
      ensures l == |processes.nodes| ==> k + 1 == old(|processes.nodes|)
    {
      hide Ring, Sound, ItemsOf, MapBy, Abs, Drained, Reset, AfterUnassign, RemoveAt, Walk, Lists;
      WalkKeep(processes.nodes, k, all, i);
      WalkDrop(processes.nodes, k, all, i);
      ProcessNode(current, k);
      DrainStep(s, Abs(), pids, i, id);
      l := k + 1;
      if current.item.group == id {
        DestroyProcess(current, k);
        l := k;
      }
    }

    /** The loop of `procaff_destroy_group_ptr` over the processes. */
    method Drain(id: int, ghost s: State, ghost pids: seq<int>)
      requires Draining(s, pids, processes.nodes, 0, 0, id)
      modifies this`mask, processes`nodes, processes.head`next, processes.head`prev, processes.nodes`next,
               processes.nodes`prev
      ensures Valid() && Lists(pids, s) && Drained(s, Abs(), pids, |pids|, id)
      ensures forall j :: 0 <= j < |processes.nodes| ==> processes.nodes[j] in old(processes.nodes)
    {
      hide *;
      ghost var all := processes.nodes;
      DrainingParts(s, pids, all, 0, 0, id);
      processes.AtIs(0);
      var current := processes.head.next;
      processes.AtIs(1);
      var next := current.next;
      ghost var i: nat, k: nat := 0, 0;
      while current != processes.head
        invariant Draining(s, pids, all, i, k, id)
        invariant Valid() && processes.Valid() && i <= |all| && k <= |processes.nodes|
        invariant current == At(processes.head, processes.nodes, k)
        invariant k < |processes.nodes| ==> next == At(processes.head, processes.nodes, k + 1)
        decreases |all| - i
      {
        DrainingParts(s, pids, all, i, k, id);
        processes.AtIs(k);
        processes.AtIs(k + 1);
        k := DrainRound(current, id, s, pids, all, i, k);
        i := i + 1;
        DrainingParts(s, pids, all, i, k, id);
        processes.AtIs(k);
        processes.AtIs(k + 1);
        current := next;
        next := next.next;
      }
      processes.AtIs(k);
      DrainingParts(s, pids, all, i, k, id);
    }

    method DestroyMembers(id: int)
      requires Valid()
      modifies this`mask, processes`nodes, processes.head`next, processes.head`prev, processes.nodes`next,
               processes.nodes`prev
      ensures Valid()
      ensures forall j :: 0 <= j < |processes.nodes| ==> processes.nodes[j] in old(processes.nodes)
      ensures var s := old(Abs());
              Abs() == s.(tracked := s.tracked - Members(s, id), mask := Reset(s.mask, Members(s, id), s.online))
      ensures forall q :: q in Abs().tracked ==> Abs().tracked[q].group != id
    {
      hide Ring, Sound, ItemsOf, Draining, Drained, Reset, Members, Abs, Lists, Pids;
      ghost var s, pids := Abs(), Pids(processes.Items());
      StartDraining(id);
      Drain(id, s, pids);
      DrainEnd(s, Abs(), pids, id);
    }

    lemma StartDraining(id: int)
      requires Valid()
      ensures Draining(Abs(), Pids(processes.Items()), processes.nodes, 0, 0, id)
    {
      hide Ring, Sound, ItemsOf, MapBy, Drained, Abs, Lists, Pids, Walk;
      ProcessesListed();
      DrainStart(Abs(), Pids(processes.Items()), id);
      WalkStart(processes.nodes);
    }

    lemma SameGroup(g: ListNode<ProcaffGroup>, h: ListNode<ProcaffGroup>)
      requires Valid() && g in groups.nodes && h in groups.nodes && g.item.id == h.item.id
      ensures g == h
    {
      var i, j :| 0 <= i < |groups.nodes| && 0 <= j < |groups.nodes| && groups.nodes[i] == g && groups.nodes[j] == h;
      var gs := groups.Items();
      assert IdOf(gs[i]) == IdOf(gs[j]);
    }

    /** Unlinks a group that has no members and is not the default group. */
    method RemoveGroup(group: ListNode<ProcaffGroup>, ghost k: nat)
      requires Valid() && k < |groups.nodes| && groups.nodes[k] == group && group != defaultGroup
      requires forall q :: q in Abs().tracked ==> Abs().tracked[q].group != group.item.id
      modifies groups`nodes, groups.head`next, groups.head`prev, groups.nodes`next, groups.nodes`prev, group`item
      ensures Valid() && groups.nodes == RemoveAt(old(groups.nodes), k)
      ensures group.next == old(group.next)
      ensures var s, id := old(Abs()), old(group.item.id);
              Abs() == s.(order := Without(s.order, id), groups := s.groups - {id})
    {
      hide Ring, Sound, ItemsOf, MapBy, Ids, Without;
      assert Abs().tracked == ProcessTable(processes.Items());
      SoundDestroy(groups.Items(), processes.Items(), k);
      groups.Remove(group, k);
      group.item := group.item.(cores := {});
      assert groups.Items() == RemoveAt(old(groups.Items()), k);
    }

    /** `procaff_destroy_group_ptr` */
    method DestroyGroupPtr(group: ListNode<ProcaffGroup>, ghost k: nat)
      requires Valid() && k < |groups.nodes| && groups.nodes[k] == group
      modifies this`mask, this`defaultGroup,
               processes`nodes, processes.head`next, processes.head`prev, processes.nodes`next, processes.nodes`prev,
               groups`nodes, groups.head`next, groups.head`prev, groups.nodes`next, groups.nodes`prev, group`item
      ensures Valid() && groups.nodes == RemoveAt(old(groups.nodes), k)
      ensures forall j :: 0 <= j < |processes.nodes| ==> processes.nodes[j] in old(processes.nodes)
      ensures group.next == old(group.next)
      ensures Abs() == AfterDestroy(old(Abs()), old(group.item.id))
    {
      hide Ring, Sound, ItemsOf, MapBy, Reset, Ids, Without;
      ghost var s := Abs();
      GroupNode(group);
      if defaultGroup != null && defaultGroup.item.id == group.item.id {
        SameGroup(group, defaultGroup);
      }
      if group == defaultGroup {
        defaultGroup := null;
      }
      assert Abs() == s.(fallback := if s.fallback == Some(group.item.id) then None else s.fallback);
      hide Abs;
      DestroyMembers(group.item.id);
      RemoveGroup(group, k);
    }

    method DestroyGroup(id: int) returns (ok: bool)
      requires Valid()
      modifies this`mask, this`defaultGroup,
               processes`nodes, processes.head`next, processes.head`prev, processes.nodes`next, processes.nodes`prev,
               groups`nodes, groups.head`next, groups.head`prev, groups.nodes`next, groups.nodes`prev, groups.nodes`item
      ensures Valid() && ok == (id in old(Abs()).groups)
      ensures Abs() == AfterDestroy(old(Abs()), id)
    {
      hide Ring, Sound, ItemsOf, MapBy, Reset, Members;
      var group, k := GroupExists(id);
      if group == null {
        return false;
      }
      DestroyGroupPtr(group, k);
      ok := true;
    }

    /** `i` of the groups `all` that were listed in table `s` have been destroyed. */
    ghost predicate Emptying(s: State, all: seq<ListNode<ProcaffGroup>>, i: nat)
      reads this, groups, groups.head, groups.nodes, processes, processes.head, processes.nodes, clock
    {
      Valid() && i <= |all| && Walk(groups.nodes, 0, all, i) && Emptied(s, Abs())
    }

    lemma EmptyingParts(s: State, all: seq<ListNode<ProcaffGroup>>, i: nat)
      requires Emptying(s, all, i)
      ensures groups.Valid() && i <= |all| && (groups.nodes == [] <==> i == |all|)
      ensures forall j :: 0 <= j < |groups.nodes| ==> groups.nodes[j] in all
    {
      hide Ring, Sound, ItemsOf, MapBy, Emptied, Abs;
      WalkWithin(groups.nodes, 0, all, i);
    }

    method DestroyFirst(current: ListNode<ProcaffGroup>, ghost s: State, ghost all: seq<ListNode<ProcaffGroup>>,
        ghost i: nat)
      requires Emptying(s, all, i) && groups.nodes != [] && groups.nodes[0] == current
      modifies this`mask, this`defaultGroup,
               processes`nodes, processes.head`next, processes.head`prev, processes.nodes`next, processes.nodes`prev,
               groups`nodes, groups.head`next, groups.head`prev, groups.nodes`next, groups.nodes`prev, current`item
      ensures i < |all| && Emptying(s, all, i + 1)
      ensures current.next == old(current.next)
      ensures groups.nodes != [] ==> groups.nodes[0] == old(At(groups.head, groups.nodes, 1))
      ensures groups.nodes == [] ==> |old(groups.nodes)| == 1
      ensures forall j :: 0 <= j < |processes.nodes| ==> processes.nodes[j] in old(processes.nodes)
    {
      hide Ring, Sound, ItemsOf, MapBy, AfterDestroy, Emptied, Abs, RemoveAt, Walk;
      WalkKeep(groups.nodes, 0, all, i);
      WalkDrop(groups.nodes, 0, all, i);
      assert current in groups.nodes;
      GroupNode(current);
      EmptiedStep(s, Abs(), current.item.id);
      var group, k := GroupExists(current.item.id);
      SameGroup(current, group);
      DestroyGroupPtr(group, 0);
    }

    /** Destroys every group. Nothing is tracked afterwards, there is no default group, and
        every process that was tracked has been given all online CPUs. */
    method Deinit()
      requires Valid()
      modifies this`mask, this`defaultGroup,
               processes`nodes, processes.head`next, processes.head`prev, processes.nodes`next, processes.nodes`prev,
               groups`nodes, groups.head`next, groups.head`prev, groups.nodes`next, groups.nodes`prev, groups.nodes`item
      ensures Valid() && groups.nodes == [] && processes.nodes == [] && defaultGroup == null
      ensures var s := old(Abs());
              Abs() == State([], map[], map[], None, Reset(s.mask, s.tracked.Keys, s.online), s.now, s.online)
    {
      hide *;
      ghost var s, all, procs := Abs(), groups.nodes, processes.nodes;
      StartEmptying();
      EmptyingParts(s, all, 0);
      groups.AtIs(0);
      var current := groups.head.next;
      groups.AtIs(1);
      var next := current.next;
      ghost var i: nat := 0;
      while current != groups.head
        invariant Emptying(s, all, i) && groups.Valid() && i <= |all|
        invariant forall j :: 0 <= j < |processes.nodes| ==> processes.nodes[j] in procs
        invariant current == At(groups.head, groups.nodes, 0)
        invariant groups.nodes != [] ==> next == At(groups.head, groups.nodes, 1)
        decreases |all| - i
      {
        EmptyingParts(s, all, i);
        groups.AtIs(0);
        groups.AtIs(1);
        DestroyFirst(current, s, all, i);
        i := i + 1;
        EmptyingParts(s, all, i);
        groups.AtIs(0);
        groups.AtIs(1);
        current := next;
        next := next.next;
      }
      groups.AtIs(0);
      EndEmptying(s, all, i);
    }

    lemma StartEmptying()
      requires Valid()
      ensures Emptying(Abs(), groups.nodes, 0)
    {
      hide Valid, Abs, Walk, Emptied;
      EmptiedStart(Abs());
      WalkStart(groups.nodes);
    }

    lemma EndEmptying(s: State, all: seq<ListNode<ProcaffGroup>>, i: nat)
      requires Emptying(s, all, i) && groups.nodes == []
      ensures Valid() && processes.nodes == [] && defaultGroup == null
      ensures Abs() == State([], map[], map[], None, Reset(s.mask, s.tracked.Keys, s.online), s.now, s.online)
    {
      hide Valid, Abs, Walk, Emptied;
      NoGroups();
      EmptiedEnd(s, Abs());
    }

    /** A table without groups is empty. */
    lemma NoGroups()
      requires Valid() && groups.nodes == []
      ensures processes.nodes == [] && defaultGroup == null
      ensures Abs() == State([], map[], map[], None, mask, clock.last.Nanos(), online)
    {
      if processes.nodes != [] {
        ProcessNode(processes.nodes[0], 0);
      }
    }

    /** The sweep has come across the process that is being assigned. */
    method VisitMatch(found: ListNode<ProcaffProcess>, g: ListNode<ProcaffGroup>, now: Time, expired: bool,
        ghost k: nat)
      requires Valid() && k < |processes.nodes| && processes.nodes[k] == found
      requires g in groups.nodes && now.Nanos() <= Abs().now
      requires expired == (found.item.deadline.Nanos() <= now.Nanos())
      modifies this`mask, found`item, clock
      ensures Valid() && found.item.pid == old(found.item.pid)
      ensures Visits(old(Abs()), Abs(), g.item.id, found.item.pid, now.Nanos(), found.item.pid)
    {
      hide Valid, Abs, Visits;
      ProcessNode(found, k);
      GroupNode(g);
      ghost var t, q, id := Abs(), found.item.pid, g.item.id;
      var currentGroup, kg := GroupExists(found.item.group);
      if currentGroup.item.id == g.item.id {
        SameGroup(currentGroup, g);
      }
      if currentGroup.item.sticky && currentGroup != g && !expired {
        VisitHeld(t, id, now.Nanos(), q);
        return;
      }
      var changed := UpdateProcess(found, g.item.id, g.item.expiry, k);
      if changed {
        PolicyRequest(found.item.pid, g.item.cores);
      }
      VisitRenewed(t, Abs(), id, now.Nanos(), q);
    }

    /** One round of the sweep in `procaff_process_assign`: `current` is assigned to `g`, kept by
        its sticky group, expired or left alone. */
    method Visit(current: ListNode<ProcaffProcess>, g: ListNode<ProcaffGroup>, pid: int, now: Time, ghost k: nat)
      returns (matched: bool, ghost removed: bool)
      requires Valid() && k < |processes.nodes| && processes.nodes[k] == current
      requires g in groups.nodes && now.Normal() && now.Nanos() <= Abs().now
      modifies this`mask, processes`nodes, processes.head`next, processes.head`prev, processes.nodes`next,
               processes.nodes`prev,
               current`item, clock
      ensures Valid() && current.next == old(current.next) && g.item == old(g.item)
      ensures processes.nodes == if removed then RemoveAt(old(processes.nodes), k) else old(processes.nodes)
      ensures current.item.pid == old(current.item.pid) && matched == (current.item.pid == pid)
      ensures Visits(old(Abs()), Abs(), g.item.id, pid, now.Nanos(), current.item.pid)
    {
      hide Ring, Sound, ItemsOf, MapBy, RemoveAt;
      ProcessNode(current, k);
      GroupNode(g);
      var expired := Passed(now, current.item.deadline);
      PassedIsOrder(now, current.item.deadline);
      matched, removed := false, false;
      if current.item.pid == pid {
        matched := true;
        VisitMatch(current, g, now, expired, k);
      } else if expired {
        removed := ExpireProcess(current, k);
      }
    }

    /** The sweep is past `i` of the processes `all` it started with, which had `pids`; `k` of
        them are still listed. */
    ghost predicate Sweeping(s: State, pids: seq<int>, all: seq<ListNode<ProcaffProcess>>, i: nat, k: nat,
                           g: ListNode<ProcaffGroup>, pid: int, now: Time)
      reads this, groups, groups.head, groups.nodes, processes, processes.head, processes.nodes, clock, all, g
    {
      && Valid() && g in groups.nodes && now.Normal() && now.Nanos() <= Abs().now
      && Lists(pids, s) && |pids| == |all| && i <= |all| && k <= |processes.nodes|
      && Walk(processes.nodes, k, all, i)
      && (forall j :: 0 <= j < |all| ==> all[j].item.pid == pids[j])
      && Swept(s, Abs(), pids, i, g.item.id, pid, now.Nanos())
    }

    lemma SweepingParts(s: State, pids: seq<int>, all: seq<ListNode<ProcaffProcess>>, i: nat, k: nat,
                        g: ListNode<ProcaffGroup>, pid: int, now: Time)
      requires Sweeping(s, pids, all, i, k, g, pid, now)
      ensures Valid() && processes.Valid() && g in groups.nodes && |pids| == |all| && i <= |all|
              && k <= |processes.nodes|
      ensures forall j :: 0 <= j < |processes.nodes| ==> processes.nodes[j] in all
      ensures k == |processes.nodes| <==> i == |all|
      ensures Swept(s, Abs(), pids, i, g.item.id, pid, now.Nanos())
    {
      hide Ring, Sound, ItemsOf, MapBy, Abs, Swept, Lists;
      WalkWithin(processes.nodes, k, all, i);
    }

    method Round(current: ListNode<ProcaffProcess>, g: ListNode<ProcaffGroup>, pid: int, now: Time,
                 ghost s: State, ghost pids: seq<int>, ghost all: seq<ListNode<ProcaffProcess>>, ghost i: nat,
                 ghost k: nat)
      returns (matched: bool, ghost l: nat)
      requires Sweeping(s, pids, all, i, k, g, pid, now)
      requires k < |processes.nodes| && processes.nodes[k] == current
      modifies this`mask, processes`nodes, processes.head`next, processes.head`prev, processes.nodes`next,
               processes.nodes`prev,
               current`item, clock
      ensures i < |all| && Sweeping(s, pids, all, i + 1, l, g, pid, now)
      ensures matched == (pids[i] == pid)
      ensures current.next == old(current.next) && g.item == old(g.item)
      ensures l < |processes.nodes| ==> processes.nodes[l] == old(At(processes.head, processes.nodes, k + 1))
      ensures l == |processes.nodes| ==> k + 1 == old(|processes.nodes|)
    {
      hide Ring, Sound, ItemsOf, MapBy, Abs, RemoveAt, Swept, Visits, Walk, Lists;
      WalkKeep(processes.nodes, k, all, i);
      WalkDrop(processes.nodes, k, all, i);
      ghost var t := Abs();
      ghost var removed;
      matched, removed := Visit(current, g, pid, now, k);
      SweepStep(s, t, Abs(), pids, i, g.item.id, pid, now.Nanos());
      l := if removed then k else k + 1;
    }

    /** The loop of `procaff_process_assign`. */
    method Sweep(g: ListNode<ProcaffGroup>, pid: int, now: Time, ghost s: State, ghost pids: seq<int>)
      returns (matched: bool)
      requires g in groups.nodes && Sweeping(s, pids, processes.nodes, 0, 0, g, pid, now)
      modifies this`mask, processes`nodes, processes.head`next, processes.head`prev,
               processes.nodes`next, processes.nodes`prev, processes.nodes`item, clock
      ensures Valid() && g.item == old(g.item) && g in groups.nodes
      ensures forall j :: 0 <= j < |processes.nodes| ==> processes.nodes[j] in old(processes.nodes)
      ensures Swept(s, Abs(), pids, |pids|, g.item.id, pid, now.Nanos())
      ensures matched == (pid in pids)
    {
      hide *;
      ghost var all := processes.nodes;
      SweepingParts(s, pids, all, 0, 0, g, pid, now);
      processes.AtIs(0);
      var current := processes.head.next;
      processes.AtIs(1);
      var next := current.next;
      matched := false;
      ghost var i: nat, k: nat := 0, 0;
      while current != processes.head
        invariant Sweeping(s, pids, all, i, k, g, pid, now) && g.item == old(g.item)
        invariant Valid() && processes.Valid() && i <= |all| && k <= |processes.nodes|
        invariant current == At(processes.head, processes.nodes, k)
        invariant k < |processes.nodes| ==> next == At(processes.head, processes.nodes, k + 1)
        invariant matched == (pid in pids[..i])
        decreases |all| - i
      {
        SweepingParts(s, pids, all, i, k, g, pid, now);
        processes.AtIs(k);
        processes.AtIs(k + 1);
        var hit;
        hit, k := Round(current, g, pid, now, s, pids, all, i, k);
        matched := matched || hit;
        PrefixStep(pids, i, pid);
        i := i + 1;
        SweepingParts(s, pids, all, i, k, g, pid, now);
        processes.AtIs(k);
        processes.AtIs(k + 1);
        current := next;
        next := next.next;
      }
      processes.AtIs(k);
      SweepingParts(s, pids, all, i, k, g, pid, now);
      assert pids[..|pids|] == pids;
    }

    /** The tail of `procaff_process_assign`: a process the sweep did not meet. */
    method Insert(g: ListNode<ProcaffGroup>, pid: int)
      requires Valid() && g in groups.nodes && pid !in Abs().tracked
      modifies this`mask, processes`nodes, processes.head`next, processes.head`prev,
               processes.nodes`next, processes.nodes`prev, clock
      ensures Valid()
      ensures forall n :: n in processes.nodes ==> n in old(processes.nodes) || fresh(n)
      ensures var t, id := old(Abs()), g.item.id;
              && id in t.groups && t.now <= Abs().now
              && Abs() == t.(now := Abs().now,
                             tracked := t.tracked[pid := Tracked(id, Abs().now + t.groups[id].expiry)],
                             mask := t.mask[pid := t.groups[id].cores])
    {
      hide Valid, Abs;
      GroupNode(g);
      var deadline := Deadline(g.item.expiry);
      var found := new ListNode.Record(ProcaffProcess(pid, deadline, g.item.id));
      PolicyRequest(pid, g.item.cores);
      LinkProcess(found);
    }

    method Deadline(expiry: Time) returns (deadline: Time)
      requires Valid() && expiry.Normal()
      modifies clock
      ensures Valid() && old(Abs()).now <= Abs().now && Abs() == old(Abs()).(now := Abs().now)
      ensures deadline.Normal() && deadline.Nanos() == Abs().now + expiry.Nanos()
    {
      hide Ring, Sound, ItemsOf, MapBy, Ids, GroupTable, ProcessTable;
      deadline := clock.In(expiry);
    }

    method PolicyRequest(pid: int, cores: set<int>)
      requires Valid()
      modifies this`mask
      ensures Valid() && Abs() == old(Abs()).(mask := old(Abs()).mask[pid := cores])
    {
      PolicySet(pid, cores);
    }

    method LinkProcess(process: ListNode<ProcaffProcess>)
      requires Valid() && process.item.pid !in Abs().tracked && process !in processes.nodes && process != processes.head
      requires process.item.deadline.Normal() && process.item.group in Abs().groups
      modifies processes`nodes, processes.head`next, processes.head`prev, processes.nodes`next, processes.nodes`prev,
               process`next, process`prev
      ensures Valid()
      ensures forall n :: n in processes.nodes ==> n in old(processes.nodes) || n == process
      ensures Abs() == old(Abs()).(tracked := old(Abs()).tracked[process.item.pid := EntryOf(process.item)])
    {
      hide Ring, Sound, ItemsOf, MapBy, InsertAt;
      SoundAppend(groups.Items(), processes.Items(), process.item);
      processes.AddBefore(processes.head, process, |processes.nodes|);
    }

    method ReadClock() returns (now: Time)
      requires Valid()
      modifies clock
      ensures Valid() && now.Normal() && old(Abs()).now <= now.Nanos()
      ensures Abs() == old(Abs()).(now := now.Nanos())
    {
      now := clock.Now();
    }

    /** `procaff_process_assign`. The reading the sweep works with is `at`. */
    method ProcessAssign(group: int, pid: int) returns (ok: bool, ghost at: int)
      requires Valid()
      modifies this`mask, processes`nodes, processes.head`next, processes.head`prev,
               processes.nodes`next, processes.nodes`prev, processes.nodes`item, clock
      ensures Valid() && ok == (group in old(Abs()).groups)
      ensures Step(old(Abs()), Assign(group, pid, at), Abs())
      ensures forall n :: n in processes.nodes ==> n in old(processes.nodes) || fresh(n)
    {
      hide *;
      ghost var s := Abs();
      var g, kg := GroupExists(group);
      if g == null {
        NoGroupNoSweep(s, group, pid, 0);
        return false, 0;
      }
      at := AssignTo(g, pid);
      ok := true;
    }

    /** The sweep, and the new entry if it has not come across the process. */
    method AssignTo(g: ListNode<ProcaffGroup>, pid: int) returns (ghost at: int)
      requires Valid() && g in groups.nodes && g.item.id in Abs().groups
      modifies this`mask, processes`nodes, processes.head`next, processes.head`prev,
               processes.nodes`next, processes.nodes`prev, processes.nodes`item, clock
      ensures Valid() && Step(old(Abs()), Assign(old(g.item.id), pid, at), Abs())
      ensures forall n :: n in processes.nodes ==> n in old(processes.nodes) || fresh(n)
    {
      hide *;
      ghost var s, group := Abs(), g.item.id;
      ghost var pids := Pids(processes.Items());
      ProcessesListed();
      var now := ReadClock();
      at := now.Nanos();
      StartSweeping(s, pids, g, pid, now);
      var matched := Sweep(g, pid, now, s, pids);
      if matched {
        SweepMatched(s, Abs(), pids, group, pid, at);
        return;
      }
      ghost var t := Abs();
      SweepUnmatched(s, t, pids, group, pid, at);
      Insert(g, pid);
      SweepInserted(s, t, Abs(), pids, group, pid, at);
    }

    lemma StartSweeping(s: State, pids: seq<int>, g: ListNode<ProcaffGroup>, pid: int, now: Time)
      requires Valid() && g in groups.nodes && now.Normal() && s.now <= now.Nanos()
      requires Abs() == s.(now := now.Nanos())
      requires Lists(pids, s) && |pids| == |processes.nodes|
      requires forall i :: 0 <= i < |processes.nodes| ==> processes.nodes[i].item.pid == pids[i]
      ensures Sweeping(s, pids, processes.nodes, 0, 0, g, pid, now)
    {
      hide Ring, Sound, ItemsOf, MapBy, Abs, Swept, Lists, Walk;
      WalkStart(processes.nodes);
      SweepStart(s, Abs(), pids, g.item.id, pid);
    }
  }
}
