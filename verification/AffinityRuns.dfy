/** Safety and progress of the process affinity table over whole runs. */
module AffinityRuns {
  import opened Options
  import opened AffinityModel

  datatype Run = Run(states: seq<State>, ops: seq<Op>) {
    ghost predicate StepAt(i: nat)
      requires i < |ops| && |states| == |ops| + 1
    {
      Legal(ops[i]) && Step(states[i], ops[i], states[i + 1])
    }

    ghost predicate Valid() {
      && |states| == |ops| + 1
      && Inv(states[0])
      && forall i :: 0 <= i < |ops| ==> StepAt(i)
    }
  }

  lemma InitialInv(now: int, online: nat)
    ensures Inv(Initial(now, online))
  {
  }

  /** Every reachable state satisfies the invariant. */
  lemma {:induction false} RunInv(r: Run, i: nat)
    requires r.Valid() && i < |r.states|
    ensures Inv(r.states[i])
  {
    if i > 0 {
      RunInv(r, i - 1);
      assert r.StepAt(i - 1);
      StepPreservesInv(r.states[i - 1], r.ops[i - 1], r.states[i]);
    }
  }

  // ----- Masks -----

  /** A process once given a mask is remembered by the mask table. */
  lemma {:induction false} MaskKept(r: Run, i: nat, j: nat, q: int)
    requires r.Valid() && i <= j < |r.states| && q in r.states[i].mask
    ensures q in r.states[j].mask && r.states[j].online == r.states[i].online
  {
    if i < j {
      MaskKept(r, i, j - 1, q);
      assert r.StepAt(j - 1);
      var s, op, s' := r.states[j - 1], r.ops[j - 1], r.states[j];
      if op.Assign? && op.id in s.groups {
        RunInv(r, j - 1);
        assert Settled(s, s'.tracked, s'.mask, s'.now, op.id, op.pid, op.at, q);
      }
    }
  }

  /** A process that was tracked at some point and no longer is was last given all online CPUs. */
  lemma ForgottenIsReset(r: Run, i: nat, j: nat, q: int)
    requires r.Valid() && i <= j < |r.states|
    requires q in r.states[i].tracked && q !in r.states[j].tracked
    ensures q in r.states[j].mask && r.states[j].mask[q] == AllOnline(r.states[i].online)
  {
    RunInv(r, i);
    assert TrackedInv(r.states[i], q);
    MaskKept(r, i, j, q);
    RunInv(r, j);
  }

  function CoresOf(s: State, g: int): set<int> {
    if g in s.groups then s.groups[g].cores else {}
  }

  ghost predicate InGroup(s: State, q: int, g: int) {
    q in s.tracked && s.tracked[q].group == g && g in s.groups
  }

  /** A step through which `q` stays in group `g` leaves its mask alone and never shrinks the
      group's cores. */
  lemma StayingStep(s: State, op: Op, s': State, q: int, g: int)
    requires Inv(s) && Legal(op) && Step(s, op, s')
    requires InGroup(s, q, g) && InGroup(s', q, g)
    ensures q in s.mask && q in s'.mask && s'.mask[q] == s.mask[q]
    ensures CoresOf(s, g) <= CoresOf(s', g)
  {
    assert TrackedInv(s, q);
    match op
    case Assign(id, pid, at) =>
      if id in s.groups {
        assert Settled(s, s'.tracked, s'.mask, s'.now, id, pid, at, q);
      }
    case Uncore(id, cpu) => CorePreservesInv(s, id, cpu);
    case _ =>
  }

  lemma {:induction false} Staying(r: Run, i: nat, j: nat, q: int, g: int)
    requires r.Valid() && i <= j < |r.states|
    requires forall k :: i <= k <= j ==> InGroup(r.states[k], q, g)
    ensures q in r.states[i].mask && q in r.states[j].mask && r.states[j].mask[q] == r.states[i].mask[q]
    ensures CoresOf(r.states[i], g) <= CoresOf(r.states[j], g)
  {
    RunInv(r, i);
    assert TrackedInv(r.states[i], q);
    if i < j {
      Staying(r, i, j - 1, q, g);
      RunInv(r, j - 1);
      assert InGroup(r.states[j - 1], q, g) && r.StepAt(j - 1);
      StayingStep(r.states[j - 1], r.ops[j - 1], r.states[j], q, g);
    }
  }

  /** Entering a group requests exactly the cores the group has then. */
  lemma EnteringStep(s: State, op: Op, s': State, q: int, g: int)
    requires Inv(s) && Step(s, op, s') && !InGroup(s, q, g) && InGroup(s', q, g)
    ensures op.Assign? && g in s.groups && s'.groups == s.groups
    ensures q in s'.mask && s'.mask[q] == CoresOf(s', g)
  {
    if q in s.tracked {
      assert TrackedInv(s, q);
    }
    if op.Assign? && op.id in s.groups {
      assert Settled(s, s'.tracked, s'.mask, s'.now, op.id, op.pid, op.at, q);
    }
  }

  /** While a process stays in a group its mask is within the group's cores, and it is all of
      them exactly when the group has gained no core since the process entered. */
  lemma MaskExact(r: Run, i: nat, j: nat, q: int, g: int)
    requires r.Valid() && i < j < |r.states|
    requires !InGroup(r.states[i], q, g) && forall k :: i < k <= j ==> InGroup(r.states[k], q, g)
    ensures q in r.states[j].mask && r.states[j].mask[q] <= CoresOf(r.states[j], g)
    ensures r.states[j].mask[q] == CoresOf(r.states[j], g) <==>
            forall k :: i < k < j ==> CoresOf(r.states[k], g) == CoresOf(r.states[k + 1], g)
  {
    RunInv(r, i);
    assert r.StepAt(i);
    EnteringStep(r.states[i], r.ops[i], r.states[i + 1], q, g);
    Staying(r, i + 1, j, q, g);
    if CoresOf(r.states[i + 1], g) == CoresOf(r.states[j], g) {
      forall k | i < k < j
        ensures CoresOf(r.states[k], g) == CoresOf(r.states[k + 1], g)
      {
        Staying(r, i + 1, k, q, g);
        Staying(r, k, k + 1, q, g);
        Staying(r, k + 1, j, q, g);
      }
    } else if forall k :: i < k < j ==> CoresOf(r.states[k], g) == CoresOf(r.states[k + 1], g) {
      SameCores(r, i + 1, j, g);
    }
  }

  lemma {:induction false} SameCores(r: Run, i: nat, j: nat, g: int)
    requires i <= j < |r.states|
    requires forall k :: i <= k < j ==> CoresOf(r.states[k], g) == CoresOf(r.states[k + 1], g)
    ensures CoresOf(r.states[i], g) == CoresOf(r.states[j], g)
  {
    if i < j {
      SameCores(r, i, j - 1, g);
      assert CoresOf(r.states[j - 1], g) == CoresOf(r.states[(j - 1) + 1], g);
    }
  }

  // ----- Stickiness -----

  ghost predicate StickyMember(s: State, q: int, g: int) {
    InGroup(s, q, g) && s.groups[g].sticky
  }

  lemma StickyStep(s: State, op: Op, s': State, q: int, g: int)
    requires Inv(s) && Legal(op) && Step(s, op, s') && StickyMember(s, q, g)
    requires op != Destroy(g) && op != Unassign(q) && (op.Assign? ==> op.at < s.tracked[q].deadline)
    ensures StickyMember(s', q, g)
    ensures s.tracked[q].deadline <= s'.tracked[q].deadline
    ensures s.tracked[q].deadline < s'.tracked[q].deadline ==> op.Assign? && op.id == g && op.pid == q
  {
    assert TrackedInv(s, q);
    if op.Assign? && op.id in s.groups {
      assert Settled(s, s'.tracked, s'.mask, s'.now, op.id, op.pid, op.at, q);
    }
  }

  /** Whatever is assigned where, a member of a sticky group stays in it as long as every
      sweep's clock reading is before the deadline it has by then, renewals included; its deadline
      never moves back, and only assigning it to that same group moves it forward. */
  lemma {:induction false} StickyRun(r: Run, q: int, g: int, i: nat)
    requires r.Valid() && StickyMember(r.states[0], q, g) && i < |r.states|
    requires forall k :: 0 <= k < i ==>
               && r.ops[k] != Destroy(g) && r.ops[k] != Unassign(q)
               && (r.ops[k].Assign? && q in r.states[k].tracked ==> r.ops[k].at < r.states[k].tracked[q].deadline)
    ensures StickyMember(r.states[i], q, g)
    ensures r.states[0].tracked[q].deadline <= r.states[i].tracked[q].deadline
    ensures r.states[0].tracked[q].deadline < r.states[i].tracked[q].deadline ==>
              exists k :: 0 <= k < i && r.ops[k].Assign? && r.ops[k].id == g && r.ops[k].pid == q
  {
    if i > 0 {
      StickyRun(r, q, g, i - 1);
      RunInv(r, i - 1);
      assert r.StepAt(i - 1);
      assert r.ops[i - 1] != Destroy(g);
      StickyStep(r.states[i - 1], r.ops[i - 1], r.states[i], q, g);
    }
  }

  // ----- Expiry -----

  /** How many expiries `q` is away from being forgotten. */
  function Rank(s: State, q: int): nat {
    if q !in s.tracked then 0
    else if s.fallback == None || s.fallback == Some(s.tracked[q].group) then 1
    else 2
  }

  /** A successful assignment of another process that finds `q` expired. */
  predicate Finds(s: State, op: Op, q: int) {
    op.Assign? && op.id in s.groups && op.pid != q && q in s.tracked && s.tracked[q].deadline <= op.at
  }

  /** Operations that neither assign `q` nor change the default group. */
  predicate Bystander(s: State, op: Op, q: int) {
    && !op.Default?
    && (op.Destroy? ==> s.fallback != Some(op.id))
    && (op.Assign? ==> op.pid != q)
  }

  lemma RankStep(s: State, op: Op, s': State, q: int)
    requires Inv(s) && Step(s, op, s') && Bystander(s, op, q)
    ensures s'.fallback == s.fallback
    ensures Rank(s', q) <= Rank(s, q)
    ensures Finds(s, op, q) ==> Rank(s', q) < Rank(s, q)
  {
    if op.Assign? && op.id in s.groups {
      assert Settled(s, s'.tracked, s'.mask, s'.now, op.id, op.pid, op.at, q);
    }
  }

  function Findings(r: Run, q: int, n: nat): nat
    requires n <= |r.ops| && |r.states| == |r.ops| + 1
  {
    if n == 0 then 0
    else Findings(r, q, n - 1) + if Finds(r.states[n - 1], r.ops[n - 1], q) then 1 else 0
  }

  lemma {:induction false} RankRun(r: Run, q: int, n: nat)
    requires r.Valid() && n <= |r.ops|
    requires forall k :: 0 <= k < n ==> Bystander(r.states[k], r.ops[k], q)
    ensures Findings(r, q, n) + Rank(r.states[n], q) <= Rank(r.states[0], q)
  {
    if n > 0 {
      RankRun(r, q, n - 1);
      RunInv(r, n - 1);
      assert r.StepAt(n - 1);
      RankStep(r.states[n - 1], r.ops[n - 1], r.states[n], q);
    }
  }

  /** With the default group fixed and `q` never assigned again, at most two sweeps find `q`
      expired, and after two of them (one, if `q` starts in the default group or there is none)
      it is forgotten and may run on every online CPU. */
  lemma ExpiryForgets(r: Run, q: int, n: nat)
    requires r.Valid() && n <= |r.ops| && q in r.states[0].tracked
    requires forall k :: 0 <= k < n ==> Bystander(r.states[k], r.ops[k], q)
    ensures Findings(r, q, n) <= Rank(r.states[0], q) <= 2
    ensures Findings(r, q, n) == Rank(r.states[0], q) ==>
              && q !in r.states[n].tracked
              && q in r.states[n].mask && r.states[n].mask[q] == AllOnline(r.states[0].online)
  {
    RankRun(r, q, n);
    if Findings(r, q, n) == Rank(r.states[0], q) {
      ForgottenIsReset(r, 0, n, q);
    }
  }

  // ----- One assignment -----

  /** The outcome of a sweep depends only on the table and on the clock: not on the order of the
      process list. Which processes are tracked, their groups and all masks are determined by
      the first clock reading; deadlines may differ by as much as the later readings do. */
  lemma OrderIndependent(s: State, s1: State, s2: State, id: int, pid: int, at: int)
    requires Inv(s) && id in s.groups && Assigned(s, s1, id, pid, at) && Assigned(s, s2, id, pid, at)
    ensures s1.mask == s2.mask
    ensures s1.tracked.Keys == s2.tracked.Keys
    ensures forall q :: q in s1.tracked ==>
              && s1.tracked[q].group == s2.tracked[q].group
              && s1.tracked[q].deadline - s2.tracked[q].deadline <= s1.now - at
    ensures s1.now == at && s2.now == at ==> s1 == s2
  {
    forall q: int
      ensures q in s1.tracked <==> q in s2.tracked
      ensures q in s1.mask <==> q in s2.mask
      ensures q in s1.mask ==> s1.mask[q] == s2.mask[q]
      ensures q in s1.tracked ==> s1.tracked[q].group == s2.tracked[q].group
      ensures q in s1.tracked ==> s1.tracked[q].deadline - s2.tracked[q].deadline <= s1.now - at
      ensures q in s1.tracked ==> s2.tracked[q].deadline - s1.tracked[q].deadline <= s2.now - at
    {
      assert Settled(s, s1.tracked, s1.mask, s1.now, id, pid, at, q);
      assert Settled(s, s2.tracked, s2.mask, s2.now, id, pid, at, q);
    }
    if s1.now == at && s2.now == at {
      assert forall q :: q in s1.tracked ==> s1.tracked[q] == s2.tracked[q];
      assert s1.tracked == s2.tracked;
    }
  }

  /** The groups whose expiry an assignment uses for a new deadline. */
  predicate Renews(s: State, id: int, pid: int, at: int, q: int, g: int) {
    FateOf(s, id, pid, at, q) in {Refreshed(g), Entered(g)}
  }

  /** The assignment during which the clock stands still. */
  function Instantly(s: State, id: int, pid: int, at: int): State
    requires Inv(s) && id in s.groups
  {
    s.(now := at,
       tracked := map q | q in s.tracked.Keys + {pid} && FateOf(s, id, pid, at, q) != Forgotten ::
         var fate := FateOf(s, id, pid, at, q);
         if fate.Refreshed? || fate.Entered? then Tracked(fate.group, at + s.groups[fate.group].expiry)
           else s.tracked[q],
       mask := map q | q in s.mask.Keys + s.tracked.Keys + {pid} ::
         var fate := FateOf(s, id, pid, at, q);
         if fate.Entered? then s.groups[fate.group].cores
         else if fate.Forgotten? then AllOnline(s.online)
         else s.mask[q])
  }

  lemma InstantlyAssigned(s: State, id: int, pid: int, at: int)
    requires Inv(s) && id in s.groups && s.now <= at
    ensures Assigned(s, Instantly(s, id, pid, at), id, pid, at)
  {
    var s' := Instantly(s, id, pid, at);
    forall q: int
      ensures Settled(s, s'.tracked, s'.mask, s'.now, id, pid, at, q)
    {
      if q in s.tracked {
        assert TrackedInv(s, q);
      }
    }
  }

  /** After an assignment no tracked process is expired at the reading taken at its start,
      whatever the later readings are, exactly when every group it renews an entry in has a
      positive expiry. */
  lemma NoneExpired(s: State, id: int, pid: int, at: int)
    requires Inv(s) && id in s.groups && s.now <= at
    ensures (forall s' :: Assigned(s, s', id, pid, at) ==> forall q :: q in s'.tracked ==> at < s'.tracked[q].deadline)
            <==> (forall q, g :: g in s.groups && Renews(s, id, pid, at, q, g) ==> s.groups[g].expiry > 0)
  {
    forall s' | Assigned(s, s', id, pid, at)
      && (forall q, g :: g in s.groups && Renews(s, id, pid, at, q, g) ==> s.groups[g].expiry > 0)
      ensures forall q :: q in s'.tracked ==> at < s'.tracked[q].deadline
    {
      forall q | q in s'.tracked
        ensures at < s'.tracked[q].deadline
      {
        assert Settled(s, s'.tracked, s'.mask, s'.now, id, pid, at, q);
        assert Renews(s, id, pid, at, q, s'.tracked[q].group) || FateOf(s, id, pid, at, q) == Unchanged;
      }
    }
    if q, g :| g in s.groups && Renews(s, id, pid, at, q, g) && s.groups[g].expiry <= 0 {
      InstantlyAssigned(s, id, pid, at);
      var s' := Instantly(s, id, pid, at);
      assert q in s'.tracked && s'.tracked[q].deadline <= at;
    }
  }
}
