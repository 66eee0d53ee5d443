/** How a loop over the process list builds up the effect of an operation on the whole table,
    one list entry at a time. `pids` are the tracked processes in list order. */
module AffinitySweep {
  import opened Options
  import opened AffinityModel

  ghost predicate Lists(pids: seq<int>, s: State) {
    && (forall i, j :: 0 <= i < j < |pids| ==> pids[i] != pids[j])
    && (forall q :: q in s.tracked <==> q in pids)
  }

  lemma PrefixStep(pids: seq<int>, i: nat, q: int)
    requires i < |pids|
    ensures q in pids[..i + 1] <==> q in pids[..i] || q == pids[i]
  {
    assert pids[..i + 1] == pids[..i] + [pids[i]];
  }

  function Gone(s: State, pids: seq<int>, i: nat, id: int): set<int>
    requires i <= |pids|
  {
    set q | q in pids[..i] && q in s.tracked && s.tracked[q].group == id
  }

  /** The table once the first `i` processes have been checked for membership in a group that
      is being destroyed. */
  ghost predicate Drained(s: State, t: State, pids: seq<int>, i: nat, id: int)
    requires i <= |pids|
  {
    t == s.(tracked := s.tracked - Gone(s, pids, i, id), mask := Reset(s.mask, Gone(s, pids, i, id), s.online))
  }

  lemma DrainStart(s: State, pids: seq<int>, id: int)
    ensures Drained(s, s, pids, 0, id)
  {
    assert Gone(s, pids, 0, id) == {};
    assert s.tracked - {} == s.tracked;
    assert Reset(s.mask, {}, s.online) == s.mask;
  }

  lemma ResetMore(mask: map<int, set<int>>, pids: set<int>, q: int, online: nat)
    ensures Reset(mask, pids + {q}, online) == Reset(mask, pids, online)[q := AllOnline(online)]
  {
  }

  lemma GoneStep(s: State, pids: seq<int>, i: nat, id: int)
    requires Lists(pids, s) && i < |pids|
    ensures pids[i] in s.tracked && pids[i] !in Gone(s, pids, i, id)
    ensures Gone(s, pids, i + 1, id) == Gone(s, pids, i, id) + if s.tracked[pids[i]].group == id then {pids[i]} else {}
  {
    assert pids[i] in pids;
    assert pids[..i + 1] == pids[..i] + [pids[i]];
  }

  lemma DrainStep(s: State, t: State, pids: seq<int>, i: nat, id: int)
    requires Lists(pids, s) && i < |pids| && Drained(s, t, pids, i, id)
    ensures pids[i] in t.tracked && t.tracked[pids[i]] == s.tracked[pids[i]]
    ensures Drained(s, if s.tracked[pids[i]].group == id then AfterUnassign(t, pids[i]) else t, pids, i + 1, id)
  {
    hide Gone, Reset;
    var g, g', q := Gone(s, pids, i, id), Gone(s, pids, i + 1, id), pids[i];
    assert q !in g ==> s.tracked - (g + {q}) == (s.tracked - g) - {q};
    assert g + {} == g;
    GoneStep(s, pids, i, id);
    ResetMore(s.mask, Gone(s, pids, i, id), pids[i], s.online);
  }

  lemma DrainEnd(s: State, t: State, pids: seq<int>, id: int)
    requires Lists(pids, s) && Drained(s, t, pids, |pids|, id)
    ensures t == s.(tracked := s.tracked - Members(s, id), mask := Reset(s.mask, Members(s, id), s.online))
    ensures forall q :: q in t.tracked ==> t.tracked[q].group != id
  {
    assert pids[..|pids|] == pids;
    forall q
      ensures q in Gone(s, pids, |pids|, id) <==> q in Members(s, id)
    {
      assert q in s.tracked <==> q in pids;
    }
    assert Gone(s, pids, |pids|, id) == Members(s, id);
  }

  /** A table some of whose groups have been destroyed along with their members. */
  ghost predicate Emptied(s: State, t: State) {
    var gone := s.tracked.Keys - t.tracked.Keys;
    && t.tracked == s.tracked - gone
    && t.mask == Reset(s.mask, gone, s.online)
    && t.now == s.now && t.online == s.online
  }

  lemma EmptiedStart(s: State)
    ensures Emptied(s, s)
  {
    assert s.tracked.Keys - s.tracked.Keys == {};
    assert s.tracked - {} == s.tracked && Reset(s.mask, {}, s.online) == s.mask;
  }

  lemma EmptiedStep(s: State, t: State, id: int)
    requires Emptied(s, t) && id in t.groups
    ensures Emptied(s, AfterDestroy(t, id))
  {
    var u := AfterDestroy(t, id);
    var gone, more := s.tracked.Keys - t.tracked.Keys, Members(t, id);
    assert u.tracked.Keys == t.tracked.Keys - more;
    assert s.tracked.Keys - u.tracked.Keys == gone + more;
    assert u.tracked == s.tracked - (gone + more);
    assert Reset(Reset(s.mask, gone, s.online), more, s.online) == Reset(s.mask, gone + more, s.online);
  }

  lemma EmptiedEnd(s: State, t: State)
    requires Emptied(s, t) && t.tracked == map[]
    ensures t.mask == Reset(s.mask, s.tracked.Keys, s.online) && t.now == s.now && t.online == s.online
  {
    assert s.tracked.Keys - {} == s.tracked.Keys;
  }

  ghost predicate Untouched(s: State, t: State, q: int) {
    && (q in s.tracked <==> q in t.tracked)
    && (q in s.tracked ==> t.tracked[q] == s.tracked[q])
    && SameMask(s, t.mask, q)
  }

  /** The table once an assignment's sweep has dealt with the first `i` processes. */
  ghost predicate Swept(s: State, t: State, pids: seq<int>, i: nat, id: int, pid: int, at: int)
    requires i <= |pids|
  {
    && s.now <= at <= t.now
    && t == s.(tracked := t.tracked, mask := t.mask, now := t.now)
    && forall q :: SweptAt(s, t, pids, i, id, pid, at, q)
  }

  ghost predicate SweptAt(s: State, t: State, pids: seq<int>, i: nat, id: int, pid: int, at: int, q: int)
    requires i <= |pids|
  {
    if q in pids[..i] then Settled(s, t.tracked, t.mask, t.now, id, pid, at, q) else Untouched(s, t, q)
  }

  /** What one round of the sweep does to the table, for the process `q` it looks at. */
  ghost predicate Visits(t: State, t': State, id: int, pid: int, at: int, q: int) {
    && t.now <= t'.now
    && t' == t.(tracked := t'.tracked, mask := t'.mask, now := t'.now)
    && Settled(t, t'.tracked, t'.mask, t'.now, id, pid, at, q)
    && forall x :: x != q ==> Untouched(t, t', x)
  }

  lemma VisitHeld(t: State, id: int, at: int, q: int)
    requires HeldSticky(t, id, q, at)
    ensures Visits(t, t, id, q, at, q)
  {
  }

  lemma VisitRenewed(t: State, t': State, id: int, at: int, q: int)
    requires q in t.tracked && id in t.groups && at <= t.now <= t'.now && !HeldSticky(t, id, q, at)
    requires t' == t.(now := t'.now,
                      tracked := t.tracked[q := Tracked(id, t'.now + t.groups[id].expiry)],
                      mask := if t.tracked[q].group != id then t.mask[q := t.groups[id].cores] else t.mask)
    ensures Visits(t, t', id, q, at, q)
  {
  }

  lemma SweepStart(s: State, t: State, pids: seq<int>, id: int, pid: int)
    requires s.now <= t.now && t == s.(now := t.now)
    ensures Swept(s, t, pids, 0, id, pid, t.now)
  {
  }

  lemma SweepStep(s: State, t: State, t': State, pids: seq<int>, i: nat, id: int, pid: int, at: int)
    requires Lists(pids, s) && i < |pids| && Swept(s, t, pids, i, id, pid, at)
    requires Visits(t, t', id, pid, at, pids[i])
    ensures Swept(s, t', pids, i + 1, id, pid, at) && at <= t'.now
  {
    var q := pids[i];
    assert q !in pids[..i];
    assert SweptAt(s, t, pids, i, id, pid, at, q);
    assert FateOf(t, id, pid, at, q) == FateOf(s, id, pid, at, q);
    var n := i + 1;
    forall x: int
      ensures SweptAt(s, t', pids, n, id, pid, at, x)
    {
      assert SweptAt(s, t, pids, i, id, pid, at, x);
      assert x in pids[..n] <==> x in pids[..i] || x == q;
      if x != q {
        assert Untouched(t, t', x);
      }
    }
  }

  lemma NoGroupNoSweep(s: State, id: int, pid: int, at: int)
    requires id !in s.groups
    ensures Step(s, Assign(id, pid, at), s)
  {
  }

  /** A complete sweep that came across the assigned process. */
  lemma SweepMatched(s: State, t: State, pids: seq<int>, id: int, pid: int, at: int)
    requires id in s.groups && Lists(pids, s) && Swept(s, t, pids, |pids|, id, pid, at) && pid in pids
    ensures Step(s, Assign(id, pid, at), t)
  {
    assert pids[..|pids|] == pids;
    forall q: int
      ensures Settled(s, t.tracked, t.mask, t.now, id, pid, at, q)
    {
      assert SweptAt(s, t, pids, |pids|, id, pid, at, q);
    }
  }

  lemma SweepUnmatched(s: State, t: State, pids: seq<int>, id: int, pid: int, at: int)
    requires Lists(pids, s) && Swept(s, t, pids, |pids|, id, pid, at) && pid !in pids
    ensures pid !in t.tracked && t.groups == s.groups
  {
    assert pids[..|pids|] == pids;
    assert SweptAt(s, t, pids, |pids|, id, pid, at, pid);
  }

  /** A complete sweep that did not, followed by the insertion of a new entry. */
  lemma SweepInserted(s: State, t: State, t': State, pids: seq<int>, id: int, pid: int, at: int)
    requires id in s.groups && Lists(pids, s) && Swept(s, t, pids, |pids|, id, pid, at) && pid !in pids
    requires t.now <= t'.now
    requires t' == t.(now := t'.now,
                      tracked := t.tracked[pid := Tracked(id, t'.now + s.groups[id].expiry)],
                      mask := t.mask[pid := s.groups[id].cores])
    ensures Step(s, Assign(id, pid, at), t')
  {
    assert pids[..|pids|] == pids;
    forall q: int
      ensures Settled(s, t'.tracked, t'.mask, t'.now, id, pid, at, q)
    {
      assert SweptAt(s, t, pids, |pids|, id, pid, at, q);
    }
  }
}
