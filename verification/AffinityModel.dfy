/** The process affinity table as a state machine over plain values: what each operation of
    `procaff.c` does to the groups, the tracked processes and the masks requested from the
    kernel, and what holds over every run of these operations. */
module AffinityModel {

  import opened Options

  datatype Group = Group(expiry: int, sticky: bool, cores: set<int>)

  /** A tracked process: its group and the instant, in nanoseconds, its entry expires. */
  datatype Tracked = Tracked(group: int, deadline: int)

  /** `order` lists the group ids as the group list does; `mask` holds the last affinity mask
      requested for each process; `now` is the last clock reading; `online` is the number of
      CPUs. */
  datatype State = State(
    order: seq<int>,
    groups: map<int, Group>,
    tracked: map<int, Tracked>,
    fallback: Option<int>,
    mask: map<int, set<int>>,
    now: int,
    online: nat)

  datatype Op =
    | Create(id: int, expiry: int, sticky: bool)
    | Destroy(id: int)
    | Default(id: int)
    | Core(id: int, cpu: int)
    | Uncore(id: int, cpu: int)
    | Assign(id: int, pid: int, at: int)
    | Unassign(pid: int)

  // ----- CPU sets -----

  const CPU_SETSIZE := 1024

  /** `CPU_SET` ignores numbers outside the set. */
  function WithCpu(cores: set<int>, cpu: int): set<int> {
    if 0 <= cpu < CPU_SETSIZE then cores + {cpu} else cores
  }

  /** The mask that `procaff_policy_reset` requests: every online CPU the set has room for. */
  function AllOnline(online: nat): (cores: set<int>)
    ensures forall cpu :: cpu in cores <==> 0 <= cpu < online && cpu < 1024
  {
    if online == 0 then {} else WithCpu(AllOnline(online - 1), online - 1)
  }

  // ----- Operations other than assignment -----

  function Initial(now: int, online: nat): State {
    State([], map[], map[], None, map[], now, online)
  }

  function AfterCreate(s: State, id: int, expiry: int, sticky: bool): State {
    if id in s.groups then s
    else s.(order := [id] + s.order, groups := s.groups[id := Group(expiry, sticky, {})])
  }

  function Without(order: seq<int>, id: int): seq<int> {
    if order == [] then []
    else if order[0] == id then Without(order[1..], id)
    else [order[0]] + Without(order[1..], id)
  }

  function Members(s: State, id: int): set<int> {
    set q | q in s.tracked && s.tracked[q].group == id
  }

  function Reset(mask: map<int, set<int>>, pids: set<int>, online: nat): map<int, set<int>> {
    map q | q in mask.Keys + pids :: if q in pids then AllOnline(online) else mask[q]
  }

  function AfterDestroy(s: State, id: int): State {
    if id !in s.groups then s
    else
      s.(order := Without(s.order, id),
         groups := s.groups - {id},
         tracked := s.tracked - Members(s, id),
         fallback := if s.fallback == Some(id) then None else s.fallback,
         mask := Reset(s.mask, Members(s, id), s.online))
  }

  function AfterDefault(s: State, id: int): State {
    s.(fallback := if id in s.groups then Some(id) else None)
  }

  /** `procaff_cpu_assignee`: the first group in list order that has the core, or -1. */
  function Owner(order: seq<int>, groups: map<int, Group>, cpu: int): int {
    if order == [] then -1
    else if order[0] in groups && cpu in groups[order[0]].cores then order[0]
    else Owner(order[1..], groups, cpu)
  }

  function AfterCore(s: State, id: int, cpu: int): State {
    if id !in s.groups || Owner(s.order, s.groups, cpu) >= 0 || cpu in s.groups[id].cores then s
    else s.(groups := s.groups[id := s.groups[id].(cores := WithCpu(s.groups[id].cores, cpu))])
  }

  function AfterUncore(s: State, id: int, cpu: int): State {
    if id !in s.groups || Owner(s.order, s.groups, cpu) >= 0 || cpu !in s.groups[id].cores then s
    else s.(groups := s.groups[id := s.groups[id].(cores := s.groups[id].cores - {cpu})])
  }

  function AfterUnassign(s: State, pid: int): State {
    if pid !in s.tracked then s
    else s.(tracked := s.tracked - {pid}, mask := s.mask[pid := AllOnline(s.online)])
  }

  // ----- Assignment -----

  /** What one `procaff_process_assign` means for one process. */
  datatype Fate = Untracked | Unchanged | Refreshed(group: int) | Entered(group: int) | Forgotten

  function FateOf(s: State, id: int, pid: int, at: int, q: int): Fate {
    if q == pid then
      if q !in s.tracked then Entered(id)
      else if HeldSticky(s, id, q, at) then Unchanged
      else if s.tracked[q].group == id then Refreshed(id)
      else Entered(id)
    else if q !in s.tracked then Untracked
    else if at < s.tracked[q].deadline then Unchanged
    else if s.fallback.Some? && s.fallback.value != s.tracked[q].group then Entered(s.fallback.value)
    else Forgotten
  }

  /** An unexpired member of a sticky group resists assignment to another group. */
  predicate HeldSticky(s: State, id: int, q: int, at: int) {
    && q in s.tracked
    && s.tracked[q].group in s.groups
    && s.groups[s.tracked[q].group].sticky
    && s.tracked[q].group != id
    && at < s.tracked[q].deadline
  }

  ghost predicate SameMask(s: State, mask: map<int, set<int>>, q: int) {
    (q in s.mask <==> q in mask) && (q in mask ==> mask[q] == s.mask[q])
  }

  /** `q` is tracked in `group` with a deadline counted from a clock reading in `[at, now]`. */
  ghost predicate Renewed(s: State, tracked: map<int, Tracked>, now: int, at: int, q: int, group: int) {
    && q in tracked && group in s.groups
    && tracked[q].group == group
    && at + s.groups[group].expiry <= tracked[q].deadline <= now + s.groups[group].expiry
  }

  /** `q`'s entry and mask, in a table that came from `s`, are what its fate says. */
  ghost predicate Settled(s: State, tracked: map<int, Tracked>, mask: map<int, set<int>>, now: int,
                          id: int, pid: int, at: int, q: int)
  {
    match FateOf(s, id, pid, at, q)
    case Untracked => q !in tracked && SameMask(s, mask, q)
    case Unchanged => q in tracked && q in s.tracked && tracked[q] == s.tracked[q] && SameMask(s, mask, q)
    case Refreshed(g) => Renewed(s, tracked, now, at, q, g) && SameMask(s, mask, q)
    case Entered(g) => Renewed(s, tracked, now, at, q, g) && q in mask && mask[q] == s.groups[g].cores
    case Forgotten => q !in tracked && q in mask && mask[q] == AllOnline(s.online)
  }

  ghost predicate Assigned(s: State, s': State, id: int, pid: int, at: int) {
    if id !in s.groups then s' == s
    else
      && s.now <= at <= s'.now
      && s' == s.(tracked := s'.tracked, mask := s'.mask, now := s'.now)
      && forall q :: Settled(s, s'.tracked, s'.mask, s'.now, id, pid, at, q)
  }

  ghost predicate Step(s: State, op: Op, s': State) {
    match op
    case Create(id, expiry, sticky) => s' == AfterCreate(s, id, expiry, sticky)
    case Destroy(id) => s' == AfterDestroy(s, id)
    case Default(id) => s' == AfterDefault(s, id)
    case Core(id, cpu) => s' == AfterCore(s, id, cpu)
    case Uncore(id, cpu) => s' == AfterUncore(s, id, cpu)
    case Assign(id, pid, at) => Assigned(s, s', id, pid, at)
    case Unassign(pid) => s' == AfterUnassign(s, pid)
  }

  // ----- Core ownership -----

  ghost predicate Ordered(s: State) {
    && (forall i, j :: 0 <= i < j < |s.order| ==> s.order[i] != s.order[j])
    && (forall id :: id in s.order <==> id in s.groups)
  }

  ghost predicate Disjoint(s: State) {
    forall a, b :: a in s.groups && b in s.groups && a != b ==> s.groups[a].cores !! s.groups[b].cores
  }

  lemma {:induction false} OwnerIsFirst(order: seq<int>, groups: map<int, Group>, cpu: int)
    ensures var o := Owner(order, groups, cpu);
            || (o in order && o in groups && cpu in groups[o].cores)
            || (o == -1 && forall id :: id in order && id in groups ==> cpu !in groups[id].cores)
  {
    if order != [] {
      OwnerIsFirst(order[1..], groups, cpu);
    }
  }

  /** Position `i` holds the first group in list order that has the core. */
  ghost predicate FirstOwner(order: seq<int>, groups: map<int, Group>, cpu: int, i: nat) {
    && i < |order| && order[i] in groups && cpu in groups[order[i]].cores
    && forall j :: 0 <= j < i && order[j] in groups ==> cpu !in groups[order[j]].cores
  }

  lemma {:induction false} OwnerAt(order: seq<int>, groups: map<int, Group>, cpu: int, i: nat)
    requires FirstOwner(order, groups, cpu, i)
    ensures Owner(order, groups, cpu) == order[i]
  {
    if i > 0 {
      assert order[0] in groups ==> cpu !in groups[order[0]].cores;
      assert forall j :: 0 <= j < |order| - 1 ==> order[1..][j] == order[j + 1];
      OwnerAt(order[1..], groups, cpu, i - 1);
    }
  }

  /** The first owner of a core that some listed group has. */
  lemma {:induction false} OwnerFound(order: seq<int>, groups: map<int, Group>, cpu: int, id: int) returns (i: nat)
    requires id in order && id in groups && cpu in groups[id].cores
    ensures FirstOwner(order, groups, cpu, i)
  {
    if order[0] in groups && cpu in groups[order[0]].cores {
      i := 0;
    } else {
      var rest := order[1..];
      assert order == [order[0]] + rest;
      var j := OwnerFound(rest, groups, cpu, id);
      i := j + 1;
      assert forall k :: 0 < k < |order| ==> order[k] == rest[k - 1];
    }
  }

  /** Assigning a core keeps the core sets disjoint unless its present owner is another group
      with a negative id, which `procaff_assign_core` takes for "no owner". */
  lemma CoreKeepsDisjoint(s: State, id: int, cpu: int)
    requires Ordered(s) && Disjoint(s) && id in s.groups
    ensures var o := Owner(s.order, s.groups, cpu);
            Disjoint(AfterCore(s, id, cpu)) <==>
            (o < 0 && o in s.groups && cpu in s.groups[o].cores && 0 <= cpu < CPU_SETSIZE ==> o == id)
  {
    var o := Owner(s.order, s.groups, cpu);
    OwnerIsFirst(s.order, s.groups, cpu);
    var t := AfterCore(s, id, cpu);
    if o < 0 && o in s.groups && cpu in s.groups[o].cores && 0 <= cpu < CPU_SETSIZE && o != id {
      assert cpu !in s.groups[id].cores;
      assert cpu in t.groups[id].cores && cpu in t.groups[o].cores;
    } else if t != s {
      forall a, b | a in t.groups && b in t.groups && a != b
        ensures t.groups[a].cores !! t.groups[b].cores
      {
        assert s.groups[a].cores !! s.groups[b].cores;
        assert cpu !in s.groups[a].cores || !(0 <= cpu < CPU_SETSIZE);
        assert cpu !in s.groups[b].cores || !(0 <= cpu < CPU_SETSIZE);
      }
    }
  }

  /** Two groups share core 0 once a group with the id -5 owned it first. */
  lemma NegativeOwner()
    ensures var groups := map[1 := Group(0, false, {}), -5 := Group(0, false, {0})];
            var s := State([1, -5], groups, map[], None, map[], 0, 1);
            Ordered(s) && Disjoint(s) && !Disjoint(AfterCore(s, 1, 0))
  {
    var s := State([1, -5], map[1 := Group(0, false, {}), -5 := Group(0, false, {0})], map[], None, map[], 0, 1);
    assert s.order[1..] == [-5];
    CoreKeepsDisjoint(s, 1, 0);
  }

  /** `procaff_unassign_core` only ever takes a core away when the first group that has it
      carries a negative id, and then this core from this group; otherwise it changes nothing. */
  lemma UncoreEffect(s: State, id: int, cpu: int)
    requires Ordered(s) && id in s.groups
    ensures AfterUncore(s, id, cpu) != s
            <==> cpu in s.groups[id].cores && exists i: nat ::
                 FirstOwner(s.order, s.groups, cpu, i) && s.order[i] < 0
    ensures var t := AfterUncore(s, id, cpu);
            && t == s.(groups := t.groups) && t.groups.Keys == s.groups.Keys
            && (t != s ==> t.groups[id] == s.groups[id].(cores := t.groups[id].cores)
                           && forall c :: c in t.groups[id].cores <==> c in s.groups[id].cores && c != cpu)
            && forall g :: g in s.groups && g != id ==> t.groups[g] == s.groups[g]
  {
    if cpu in s.groups[id].cores {
      var i := OwnerFound(s.order, s.groups, cpu, id);
      forall j: nat | FirstOwner(s.order, s.groups, cpu, j)
        ensures Owner(s.order, s.groups, cpu) == s.order[j]
      {
        OwnerAt(s.order, s.groups, cpu, j);
      }
    }
    var t := AfterUncore(s, id, cpu);
    if cpu in s.groups[id].cores && Owner(s.order, s.groups, cpu) < 0 {
      assert cpu !in t.groups[id].cores;
    }
  }

  // ----- The invariant -----

  /** Groups are non-negative, listed once and own disjoint cores; the default group exists;
      a tracked process belongs to a group, does not outlive that group's expiry and was last
      given a mask within the group's cores; every other process that was ever given a mask was
      last given all CPUs. */
  ghost predicate Inv(s: State) {
    && Ordered(s) && Disjoint(s)
    && (forall id :: id in s.groups ==> id >= 0)
    && (s.fallback.Some? ==> s.fallback.value in s.groups)
    && (forall q :: q in s.tracked ==> TrackedInv(s, q))
    && (forall q :: q in s.mask && q !in s.tracked ==> s.mask[q] == AllOnline(s.online))
  }

  ghost predicate TrackedInv(s: State, q: int)
    requires q in s.tracked
  {
    && s.tracked[q].group in s.groups
    && s.tracked[q].deadline <= s.now + s.groups[s.tracked[q].group].expiry
    && q in s.mask && s.mask[q] <= s.groups[s.tracked[q].group].cores
  }

  /** Group ids are kept non-negative by the callers, since -1 stands for "no owner". */
  ghost predicate Legal(op: Op) {
    op.Create? ==> op.id >= 0
  }

  lemma {:induction false} WithoutIs(order: seq<int>, id: int)
    requires forall i, j :: 0 <= i < j < |order| ==> order[i] != order[j]
    ensures var w := Without(order, id);
            && (forall x :: x in w <==> x in order && x != id)
            && (forall i, j :: 0 <= i < j < |w| ==> w[i] != w[j])
  {
    if order != [] {
      WithoutIs(order[1..], id);
      assert order == [order[0]] + order[1..];
      assert order[0] !in Without(order[1..], id);
    }
  }

  lemma {:induction false} WithoutAbsent(order: seq<int>, id: int)
    requires forall i :: 0 <= i < |order| ==> order[i] != id
    ensures Without(order, id) == order
  {
    if order != [] {
      WithoutAbsent(order[1..], id);
    }
  }

  lemma CorePreservesInv(s: State, id: int, cpu: int)
    requires Inv(s)
    ensures Inv(AfterCore(s, id, cpu)) && AfterUncore(s, id, cpu) == s
  {
    OwnerIsFirst(s.order, s.groups, cpu);
    if id in s.groups {
      CoreKeepsDisjoint(s, id, cpu);
      var t := AfterCore(s, id, cpu);
      forall q | q in t.tracked
        ensures TrackedInv(t, q)
      {
        assert TrackedInv(s, q);
      }
    }
  }

  lemma DestroyPreservesInv(s: State, id: int)
    requires Inv(s)
    ensures Inv(AfterDestroy(s, id))
  {
    WithoutIs(s.order, id);
    var t := AfterDestroy(s, id);
    forall q | q in t.tracked
      ensures TrackedInv(t, q)
    {
      assert TrackedInv(s, q);
    }
  }

  lemma AssignPreservesInv(s: State, s': State, id: int, pid: int, at: int)
    requires Inv(s) && Assigned(s, s', id, pid, at)
    ensures Inv(s')
  {
    if id in s.groups {
      forall q | q in s'.tracked
        ensures TrackedInv(s', q)
      {
        assert Settled(s, s'.tracked, s'.mask, s'.now, id, pid, at, q);
        if q in s.tracked {
          assert TrackedInv(s, q);
        }
      }
      forall q | q in s'.mask && q !in s'.tracked
        ensures s'.mask[q] == AllOnline(s'.online)
      {
        assert Settled(s, s'.tracked, s'.mask, s'.now, id, pid, at, q);
      }
    }
  }

  lemma StepPreservesInv(s: State, op: Op, s': State)
    requires Inv(s) && Legal(op) && Step(s, op, s')
    ensures Inv(s')
  {
    match op
    case Create(id, expiry, sticky) =>
      if id !in s.groups {
        assert forall x :: x in s'.order <==> x == id || x in s.order;
        forall q | q in s'.tracked
          ensures TrackedInv(s', q)
        {
          assert TrackedInv(s, q);
        }
      }
    case Destroy(id) => DestroyPreservesInv(s, id);
    case Default(id) =>
      forall q | q in s'.tracked
        ensures TrackedInv(s', q)
      {
        assert TrackedInv(s, q);
      }
    case Core(id, cpu) => CorePreservesInv(s, id, cpu);
    case Uncore(id, cpu) => CorePreservesInv(s, id, cpu);
    case Assign(id, pid, at) => AssignPreservesInv(s, s', id, pid, at);
    case Unassign(pid) =>
      forall q | q in s'.tracked
        ensures TrackedInv(s', q)
      {
        assert TrackedInv(s, q);
      }
  }
}
