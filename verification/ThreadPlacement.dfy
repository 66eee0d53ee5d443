/** Where the program puts threads: the run from its start on, in which the sampler assigns each
    sampled thread to group 1 if it wrote to non-volatile memory and to group 0 otherwise. */
module ThreadPlacement {
  import opened AffinityLaws
  import opened AffinityModel
  import opened AffinityRuns
  import opened Options
  import opened StartUp

  /** The two groups as the start leaves them, and every tracked thread on exactly the cores of its
      group. */
  ghost predicate Running(s: State, general: set<int>, nvmm: set<int>) {
    && Inv(s) && s.fallback == Some(0) && general !! nvmm
    && s.groups == map[1 := Group(200_000_000, true, nvmm), 0 := Group(60_000_000_000, false, general)]
    && forall q :: q in s.tracked ==> q in s.mask && s.mask[q] == s.groups[s.tracked[q].group].cores
  }

  lemma StartRunning(s: State, all: string, nvmm: string, n: nat)
    requires Divided(s, all, nvmm, n)
    ensures Running(s, Share(all, nvmm, n, false), Share(all, nvmm, n, true))
  {
    assert s.groups[1].cores !! s.groups[0].cores;
  }

  /** A sample keeps the groups, and every thread on the cores of its group. */
  lemma SampleKeeps(s: State, s': State, general: set<int>, nvmm: set<int>, id: int, pid: int, at: int)
    requires Running(s, general, nvmm) && Step(s, Assign(id, pid, at), s')
    ensures Running(s', general, nvmm)
  {
    AssignPreservesInv(s, s', id, pid, at);
    if id in s.groups {
      forall q | q in s'.tracked
        ensures q in s'.mask && s'.mask[q] == s'.groups[s'.tracked[q].group].cores
      {
        if q == pid {
          AssignTarget(s, s', id, pid, at);
        } else {
          AssignOther(s, s', id, pid, at, q);
        }
      }
    }
  }

  /** A sampled write to non-volatile memory puts the thread on the NVMM cores for at least 200 ms.
      Any other sampled write puts it on the general cores for at least a minute, unless it is still
      kept on the NVMM cores. */
  lemma SamplePlaces(s: State, s': State, general: set<int>, nvmm: set<int>, isNvmm: bool, pid: int, at: int)
    requires Running(s, general, nvmm) && Step(s, Assign(if isNvmm then 1 else 0, pid, at), s')
    ensures pid in s'.tracked && pid in s'.mask
    ensures var kept := pid in s.tracked && s.tracked[pid].group == 1 && at < s.tracked[pid].deadline;
            if isNvmm then
              s'.tracked[pid].group == 1 && s'.mask[pid] == nvmm && at + 200_000_000 <= s'.tracked[pid].deadline
            else if kept then
              s'.tracked[pid] == s.tracked[pid] && s'.mask[pid] == nvmm
            else
              s'.tracked[pid].group == 0 && s'.mask[pid] == general && at + 60_000_000_000 <= s'.tracked[pid].deadline
  {
    SampleKeeps(s, s', general, nvmm, if isNvmm then 1 else 0, pid, at);
    AssignTarget(s, s', if isNvmm then 1 else 0, pid, at);
    if pid in s.tracked {
      assert TrackedInv(s, pid);
    }
  }

  /** The sample of another thread sends an expired thread from the NVMM cores to the general ones,
      and from there to every online CPU. */
  lemma SampleExpires(s: State, s': State, general: set<int>, nvmm: set<int>, isNvmm: bool, pid: int, at: int, q: int)
    requires Running(s, general, nvmm) && Step(s, Assign(if isNvmm then 1 else 0, pid, at), s')
    requires q in s.tracked && q != pid && s.tracked[q].deadline <= at
    ensures s.tracked[q].group in {0, 1} && q in s'.mask
    ensures s.tracked[q].group == 1 ==>
              && q in s'.tracked && s'.tracked[q].group == 0 && s'.mask[q] == general
              && at + 60_000_000_000 <= s'.tracked[q].deadline
    ensures s.tracked[q].group == 0 ==> q !in s'.tracked && AllCpus(s'.mask[q], s.online)
  {
    assert TrackedInv(s, q);
    AssignOther(s, s', if isNvmm then 1 else 0, pid, at, q);
  }

  /** Nothing but samples from state `from` to state `to`. */
  ghost predicate Samples(r: Run, from: nat, to: nat) {
    r.Valid() && from <= to <= |r.ops| && forall k :: from <= k < to ==> r.ops[k].Assign? && r.ops[k].id in {0, 1}
  }

  lemma {:induction false} RunKeeps(r: Run, general: set<int>, nvmm: set<int>, i: nat)
    requires Samples(r, 0, i) && Running(r.states[0], general, nvmm)
    ensures Running(r.states[i], general, nvmm)
  {
    if i > 0 {
      RunKeeps(r, general, nvmm, i - 1);
      assert r.StepAt(i - 1);
      var op := r.ops[i - 1];
      SampleKeeps(r.states[i - 1], r.states[i], general, nvmm, op.id, op.pid, op.at);
    }
  }

  /** Whatever is sampled after it, a write to non-volatile memory keeps the thread on exactly the
      NVMM cores for 200 ms, and each further one for 200 ms more. */
  lemma {:induction false} NvmmKept(r: Run, general: set<int>, nvmm: set<int>, i: nat, j: nat, pid: int)
    requires i < j && Samples(r, 0, j) && Running(r.states[0], general, nvmm)
    requires r.ops[i].pid == pid && r.ops[i].id == 1
    requires forall k :: i < k < j ==> r.ops[k].at < r.ops[i].at + 200_000_000
    ensures var t := r.states[j];
            && pid in t.tracked && t.tracked[pid].group == 1 && pid in t.mask && t.mask[pid] == nvmm
            && r.ops[i].at + 200_000_000 <= t.tracked[pid].deadline && r.ops[i].at <= t.now
    decreases j
  {
    RunKeeps(r, general, nvmm, j - 1);
    assert r.StepAt(j - 1);
    var op, s, s' := r.ops[j - 1], r.states[j - 1], r.states[j];
    if i < j - 1 {
      NvmmKept(r, general, nvmm, i, j - 1, pid);
      RunKeeps(r, general, nvmm, j);
      if op.pid == pid {
        AssignTarget(s, s', op.id, pid, op.at);
      } else {
        AssignOther(s, s', op.id, op.pid, op.at, pid);
      }
    } else {
      SamplePlaces(s, s', general, nvmm, true, pid, op.at);
    }
  }
}
