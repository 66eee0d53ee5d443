/** The start of `main`: two groups, the general one the default, and the listed online cores
    divided between them. */
module StartUp {
  import opened Options
  import opened Timespec
  import opened AffinityModel
  import opened Affinity
  import opened CpuList

  const EXPIRY_DEFAULT := Time(60, 0)
  const EXPIRY_NVMM := Time(0, 200000000)

  /** The online cores below `n` that are listed and, as wanted, are or are not NVMM cores. */
  function Share(all: string, nvmm: string, n: nat, isNvmm: bool): set<int> {
    set c: int | 0 <= c < n && c < CPU_SETSIZE && Scan(all, c) && Scan(nvmm, c) == isNvmm
  }

  /** Groups 1 and 0, with the cores below `n` divided. */
  ghost predicate Divided(s: State, all: string, nvmm: string, n: nat) {
    && s.order == [1, 0]
    && s.groups == map[1 := Group(EXPIRY_NVMM.Nanos(), true, Share(all, nvmm, n, true)),
                       0 := Group(EXPIRY_DEFAULT.Nanos(), false, Share(all, nvmm, n, false))]
    && s.fallback == Some(0) && s.tracked == map[] && s.mask == map[]
  }

  lemma DividedStart(s: State, all: string, nvmm: string)
    requires s.tracked == map[] && s.mask == map[] && s.order == [] && s.groups == map[]
    ensures var t := AfterCreate(AfterCreate(s, 0, EXPIRY_DEFAULT.Nanos(), false), 1, EXPIRY_NVMM.Nanos(), true);
            Divided(AfterDefault(t, 0), all, nvmm, 0)
  {
    assert Share(all, nvmm, 0, true) == {} && Share(all, nvmm, 0, false) == {};
    assert [1] + ([0] + []) == [1, 0];
  }

  /** A core that is not listed goes to neither group. */
  lemma DividedSkip(s: State, all: string, nvmm: string, core: nat)
    requires Divided(s, all, nvmm, core) && !Scan(all, core)
    ensures Divided(s, all, nvmm, core + 1)
  {
    assert Share(all, nvmm, core + 1, true) == Share(all, nvmm, core, true);
    assert Share(all, nvmm, core + 1, false) == Share(all, nvmm, core, false);
  }

  /** The next core has no owner yet, so it is assigned. */
  lemma DividedStep(s: State, all: string, nvmm: string, core: nat)
    requires Divided(s, all, nvmm, core) && Scan(all, core)
    ensures Divided(AfterCore(s, if Scan(nvmm, core) then 1 else 0, core), all, nvmm, core + 1)
  {
    hide Scan, Owner;
    OwnerIsFirst(s.order, s.groups, core);
    assert Share(all, nvmm, core + 1, Scan(nvmm, core)) == WithCpu(Share(all, nvmm, core, Scan(nvmm, core)), core);
    assert Share(all, nvmm, core + 1, !Scan(nvmm, core)) == Share(all, nvmm, core, !Scan(nvmm, core));
  }

  /** The two groups, with the general one as the default. */
  method Groups(clock: Clock, numCpuCores: nat, ghost all: string, ghost nvmm: string) returns (procaff: ProcaffContext)
    requires clock.Valid()
    ensures fresh(procaff) && procaff.Valid() && Divided(procaff.Abs(), all, nvmm, 0)
    ensures forall j :: 0 <= j < |procaff.groups.nodes| ==> fresh(procaff.groups.nodes[j])
  {
    hide *;
    procaff := new ProcaffContext(clock, numCpuCores);
    ghost var s := procaff.Abs();
    InitialIs(clock.last.Nanos(), numCpuCores);
    var ok := procaff.CreateGroup(0, EXPIRY_DEFAULT, false);
    forall j | 0 <= j < |procaff.groups.nodes|
      ensures fresh(procaff.groups.nodes[j])
    {
      assert procaff.groups.nodes[j] in procaff.groups.nodes;
    }
    ok := procaff.CreateGroup(1, EXPIRY_NVMM, true);
    forall j | 0 <= j < |procaff.groups.nodes|
      ensures fresh(procaff.groups.nodes[j])
    {
      assert procaff.groups.nodes[j] in procaff.groups.nodes;
    }
    ok := procaff.DefaultGroup(0);
    DividedStart(s, all, nvmm);
  }

  /** The loop over the online cores. */
  method Divide(procaff: ProcaffContext, allCores: array<char>, nvmmCores: array<char>, numCpuCores: nat)
    requires '\0' in allCores[..] && '\0' in nvmmCores[..]
    requires procaff.Valid() && Divided(procaff.Abs(), Text(allCores[..]), Text(nvmmCores[..]), 0)
    modifies allCores, nvmmCores, procaff.groups.nodes`item
    ensures allCores[..] == old(allCores[..]) && nvmmCores[..] == old(nvmmCores[..])
    ensures procaff.Valid()
    ensures Divided(procaff.Abs(), Text(allCores[..]), Text(nvmmCores[..]), numCpuCores)
  {
    hide *;
    ghost var all, nvmm := Text(allCores[..]), Text(nvmmCores[..]);
    for core := 0 to numCpuCores
      invariant allCores[..] == old(allCores[..]) && nvmmCores[..] == old(nvmmCores[..])
      invariant procaff.Valid() && Divided(procaff.Abs(), all, nvmm, core)
    {
      var listed := CpuInCpulist(allCores, core);
      if listed {
        var isNvmm := CpuInCpulist(nvmmCores, core);
        DividedStep(procaff.Abs(), all, nvmm, core);
        var ok := procaff.AssignCore(if isNvmm then 1 else 0, core);
      } else {
        DividedSkip(procaff.Abs(), all, nvmm, core);
      }
    }
  }

  /** Group 1 ends up with exactly the online cores on both lists and group 0 with exactly those
      on the first list only; both arguments are as they were. */
  method Prepare(allCores: array<char>, nvmmCores: array<char>, clock: Clock, numCpuCores: nat)
    returns (procaff: ProcaffContext)
    requires '\0' in allCores[..] && '\0' in nvmmCores[..] && clock.Valid()
    modifies allCores, nvmmCores
    ensures allCores[..] == old(allCores[..]) && nvmmCores[..] == old(nvmmCores[..])
    ensures procaff.Valid()
    ensures Divided(procaff.Abs(), Text(allCores[..]), Text(nvmmCores[..]), numCpuCores)
  {
    hide *;
    procaff := Groups(clock, numCpuCores, Text(allCores[..]), Text(nvmmCores[..]));
    Divide(procaff, allCores, nvmmCores, numCpuCores);
  }

  predicate Listed(items: seq<Item>, c: int) {
    exists i :: 0 <= i < |items| && items[i].Has(c)
  }

  /** For arguments in the List format of cpuset(7): of the online cores below 1024, group 1 owns
      exactly those on both lists and group 0 exactly those on the first list only. Group 1 is sticky
      and keeps a thread for 200 ms, group 0 for a minute. */
  lemma {:induction false} DividedListed(s: State, all: seq<Item>, nvmm: seq<Item>, n: nat)
    requires Divided(s, ListText(all), ListText(nvmm), n)
    ensures s.groups.Keys == {0, 1} && s.fallback == Some(0)
    ensures s.groups[1].cores == set c: int | 0 <= c < n && c < 1024 && Listed(all, c) && Listed(nvmm, c)
    ensures s.groups[0].cores == set c: int | 0 <= c < n && c < 1024 && Listed(all, c) && !Listed(nvmm, c)
    ensures s.groups[1].expiry == 200_000_000 && s.groups[1].sticky
    ensures s.groups[0].expiry == 60_000_000_000 && !s.groups[0].sticky
  {
    hide Scan, ListText;
    forall c: int
      ensures Scan(ListText(all), c) <==> Listed(all, c)
      ensures Scan(ListText(nvmm), c) <==> Listed(nvmm, c)
    {
      ScanIsUnion(all, c);
      ScanIsUnion(nvmm, c);
    }
  }

  lemma InitialIs(now: int, online: nat)
    ensures var s := Initial(now, online);
            s.tracked == map[] && s.mask == map[] && s.order == [] && s.groups == map[]
    ensures EXPIRY_DEFAULT.Normal() && EXPIRY_NVMM.Normal()
  {
  }
}
