/** What each operation on the affinity table means to its caller: which process ends up where with
    which mask, which core belongs to whom, and that nothing else changes. */
module AffinityLaws {
  import opened Options
  import opened AffinityModel

  /** Every online CPU below 1024, the size of a `cpu_set_t`. */
  ghost predicate AllCpus(cores: set<int>, online: nat) {
    forall cpu :: cpu in cores <==> 0 <= cpu < online && cpu < 1024
  }

  ghost predicate SameButTable(s: State, s': State) {
    s'.order == s.order && s'.groups == s.groups && s'.fallback == s.fallback && s'.online == s.online
  }

  /** Unless it is an unexpired member of another group that is sticky, the process that is assigned
      is in the group afterwards with a new deadline, and with the group's cores unless it was there
      before. Otherwise nothing about it changes. */
  lemma AssignTarget(s: State, s': State, id: int, pid: int, at: int)
    requires Inv(s) && id in s.groups && Assigned(s, s', id, pid, at)
    ensures var stays := pid in s.tracked && s.tracked[pid].group == id;
            var held := pid in s.tracked && !stays && s.groups[s.tracked[pid].group].sticky
                        && at < s.tracked[pid].deadline;
            && pid in s'.tracked && pid in s'.mask
            && (s'.tracked[pid].group == id <==> !held)
            && (held ==> s'.tracked[pid] == s.tracked[pid])
            && (held || stays ==> pid in s.mask && s'.mask[pid] == s.mask[pid])
            && (!held ==> at <= s'.tracked[pid].deadline - s.groups[id].expiry <= s'.now)
            && (!held && !stays ==> s'.mask[pid] == s.groups[id].cores)
  {
    assert Settled(s, s'.tracked, s'.mask, s'.now, id, pid, at, pid);
    if pid in s.tracked {
      assert TrackedInv(s, pid);
    }
  }

  /** Of the other processes exactly the expired ones are touched: one moves to the default group,
      with its cores and a new deadline, or is dropped and may run anywhere if it was in that group
      or there is none. */
  lemma AssignOther(s: State, s': State, id: int, pid: int, at: int, q: int)
    requires Inv(s) && id in s.groups && Assigned(s, s', id, pid, at) && q != pid
    ensures SameButTable(s, s') && s.now <= at <= s'.now
    ensures q !in s.tracked ==> q !in s'.tracked && SameMask(s, s'.mask, q)
    ensures q in s.tracked && at < s.tracked[q].deadline ==>
              q in s'.tracked && s'.tracked[q] == s.tracked[q] && SameMask(s, s'.mask, q)
    ensures q in s.tracked && s.tracked[q].deadline <= at ==>
              if s.fallback.Some? && s.tracked[q].group != s.fallback.value then
                var g := s.fallback.value;
                && q in s'.tracked && s'.tracked[q].group == g && g in s.groups
                && at <= s'.tracked[q].deadline - s.groups[g].expiry <= s'.now
                && q in s'.mask && s'.mask[q] == s.groups[g].cores
              else
                q !in s'.tracked && q in s'.mask && AllCpus(s'.mask[q], s.online)
  {
    assert Settled(s, s'.tracked, s'.mask, s'.now, id, pid, at, q);
  }

  /** An assignment to a group that does not exist does nothing, not even a sweep. */
  lemma AssignUnknown(s: State, s': State, id: int, pid: int, at: int)
    requires id !in s.groups && Assigned(s, s', id, pid, at)
    ensures s' == s
  {
  }

  /** Nothing happens to a process that is not tracked; a tracked one is forgotten and may run
      anywhere. */
  lemma UnassignExact(s: State, s': State, pid: int, q: int)
    requires Inv(s) && Step(s, Unassign(pid), s')
    ensures SameButTable(s, s') && s'.now == s.now
    ensures q == pid && pid in s.tracked ==> q !in s'.tracked && q in s'.mask && AllCpus(s'.mask[q], s.online)
    ensures q != pid || pid !in s.tracked ==>
              SameMask(s, s'.mask, q)
              && (q in s'.tracked <==> q in s.tracked) && (q in s.tracked ==> s'.tracked[q] == s.tracked[q])
  {
  }

  /** A known id is refused; a new group is listed first, owns no core, and is not the default. */
  lemma CreateExact(s: State, s': State, id: int, expiry: int, sticky: bool)
    requires Inv(s) && Step(s, Create(id, expiry, sticky), s')
    ensures id in s.groups ==> s' == s
    ensures id !in s.groups ==>
              && |s'.order| == |s.order| + 1 && s'.order[0] == id && s'.order[1..] == s.order
              && id in s'.groups && s'.groups[id] == Group(expiry, sticky, {}) && s'.fallback != Some(id)
    ensures forall g :: g in s.groups ==> g in s'.groups && s'.groups[g] == s.groups[g]
    ensures forall g :: g in s'.groups ==> g == id || g in s.groups
    ensures s'.tracked == s.tracked && s'.mask == s.mask && s'.fallback == s.fallback
    ensures s'.now == s.now && s'.online == s.online
  {
  }

  lemma {:induction false} WithoutAt(order: seq<int>, k: nat)
    requires k < |order| && forall i, j :: 0 <= i < j < |order| ==> order[i] != order[j]
    ensures Without(order, order[k]) == order[..k] + order[k + 1..]
  {
    if k == 0 {
      WithoutAbsent(order[1..], order[0]);
      assert order[..0] + order[1..] == order[1..];
    } else {
      WithoutAt(order[1..], k - 1);
      assert order[..k] + order[k + 1..] == [order[0]] + (order[1..][..k - 1] + order[1..][k..]);
    }
  }

  /** An unknown id is refused. Otherwise the group goes, the others keep their places, its
      members are forgotten and may run anywhere, and every other process is left alone. */
  lemma DestroyExact(s: State, s': State, id: int, q: int)
    requires Inv(s) && Step(s, Destroy(id), s')
    ensures id !in s.groups ==> s' == s
    ensures id in s.groups ==>
              exists k :: 0 <= k < |s.order| && s.order[k] == id && s'.order == s.order[..k] + s.order[k + 1..]
    ensures forall g :: g in s'.groups <==> g in s.groups && g != id
    ensures forall g :: g in s'.groups ==> s'.groups[g] == s.groups[g]
    ensures s'.fallback == if s.fallback == Some(id) then None else s.fallback
    ensures q in s.tracked && s.tracked[q].group == id ==>
              q !in s'.tracked && q in s'.mask && AllCpus(s'.mask[q], s.online)
    ensures q !in s.tracked || s.tracked[q].group != id ==>
              SameMask(s, s'.mask, q)
              && (q in s'.tracked <==> q in s.tracked) && (q in s.tracked ==> s'.tracked[q] == s.tracked[q])
    ensures s'.now == s.now && s'.online == s.online
  {
    if q in s.tracked {
      assert TrackedInv(s, q);
    }
    if id in s.groups {
      var k :| 0 <= k < |s.order| && s.order[k] == id;
      WithoutAt(s.order, k);
    }
  }

  /** An unknown id leaves the table without a default. */
  lemma DefaultExact(s: State, s': State, id: int)
    requires Step(s, Default(id), s')
    ensures s' == s.(fallback := s'.fallback)
    ensures s'.fallback.Some? <==> id in s.groups
    ensures s'.fallback.Some? ==> s'.fallback.value == id
  {
  }

  /** A core below 1024 that no group has goes to the group; nothing else changes. */
  lemma CoreExact(s: State, s': State, id: int, cpu: int, g: int, c: int)
    requires Inv(s) && Step(s, Core(id, cpu), s')
    ensures s' == s.(groups := s'.groups) && s'.groups.Keys == s.groups.Keys
    ensures g in s.groups ==>
              && s'.groups[g].expiry == s.groups[g].expiry && s'.groups[g].sticky == s.groups[g].sticky
              && (c in s'.groups[g].cores <==>
                  || c in s.groups[g].cores
                  || (g == id && c == cpu && 0 <= cpu < 1024
                      && forall h :: h in s.groups ==> cpu !in s.groups[h].cores))
  {
    OwnerIsFirst(s.order, s.groups, cpu);
  }
}
