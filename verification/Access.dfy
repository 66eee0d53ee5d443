/** Write accounting on its linked lists: an entry per process with a list of threads and, in
    builds that store them, a list of instructions; the worker that steals and prints them. */
module Access {
  import opened Options
  import opened IntrusiveList
  import opened AccessModel

  /** The search for the row with the key. */
  method FindRow<K(==, 0)>(rows: List<Row<K>>, key: K) returns (found: ListNode?<Row<K>>, ghost k: nat)
    requires rows.Valid()
    ensures found == null <==> !HasKey(rows.Items(), key)
    ensures found != null ==> k < |rows.nodes| && rows.nodes[k] == found && found.item.key == key
    ensures found != null ==> forall i :: 0 <= i < k ==> rows.Items()[i].key != key
  {
    hide Ring, ItemsOf;
    found := null;
    rows.AtIs(0);
    var current := rows.head.next;
    k := 0;
    while current != rows.head
      invariant k <= |rows.nodes| && current == At(rows.head, rows.nodes, k) && found == null
      invariant forall i :: 0 <= i < k ==> rows.Items()[i].key != key
      decreases |rows.nodes| - k
    {
      if current.item.key == key {
        found := current;
        break;
      }
      rows.AtIs(k + 1);
      current := current.next;
      k := k + 1;
    }
    rows.AtIs(k);
  }

  /** Finds the row with the key or links a new one behind the head, and counts the access:
      the two searches of `access_entry_track_write`. */
  method TrackRow<K(==, 0)>(rows: List<Row<K>>, key: K, size: nat)
    requires rows.Valid()
    modifies rows`nodes, rows.head`next, rows.head`prev, rows.nodes`next, rows.nodes`prev, rows.nodes`item
    ensures rows.Valid() && rows.Items() == Track(old(rows.Items()), key, size)
    ensures forall n :: n in rows.nodes ==> n in old(rows.nodes) || fresh(n)
  {
    hide Ring, ItemsOf, Track, HasKey;
    ghost var before := rows.Items();
    var found, k := FindRow(rows, key);
    if found == null {
      found := new ListNode.Record(Row(key, 0, 0));
      rows.AddAfter(rows.head, found, 0);
      k := 0;
      TrackNew(before, key, size);
    } else {
      BumpAt(before, key, size, k);
    }
    rows.Update(found, Row(key, found.item.bytes + size, found.item.accesses + 1), k);
  }

  lemma TrackNew<K>(rows: seq<Row<K>>, key: K, size: nat)
    requires !HasKey(rows, key)
    ensures Track(rows, key, size) == InsertAt(rows, 0, Row(key, 0, 0))[0 := Row(key, size, 1)]
  {
  }

  /** `struct access_entry`; the node that links it is a `ListNode` around it. */
  class AccessEntry {
    const pid: int
    var bytes: nat
    var accesses: nat
    const insns: List<Row<string>>
    const tids: List<Row<int>>
    ghost var repr: set<object>

    ghost predicate Valid()
      reads this, repr
      ensures Valid() ==> this in repr
    {
      && this in repr && insns in repr && insns.head in repr && tids in repr && tids.head in repr
      && (forall n :: n in insns.nodes ==> n in repr)
      && (forall n :: n in tids.nodes ==> n in repr)
      && insns.Valid() && tids.Valid()
    }

    ghost function Value(): Entry
      requires Valid()
      reads this, repr
    {
      Entry(pid, bytes, accesses, insns.Items(), tids.Items())
    }

    constructor (pid: int)
      ensures Valid() && fresh(repr) && Value() == Entry(pid, 0, 0, [], [])
    {
      this.pid := pid;
      bytes, accesses := 0, 0;
      var i := new List<Row<string>>();
      var t := new List<Row<int>>();
      insns, tids := i, t;
      repr := {this, i, i.head, t, t.head};
    }

    method CountTotal(size: nat)
      requires Valid()
      modifies `bytes, `accesses
      ensures Valid()
      ensures Value() == old(Value()).(bytes := old(Value()).bytes + size, accesses := old(Value()).accesses + 1)
    {
      hide Ring, ItemsOf;
      bytes := bytes + size;
      accesses := accesses + 1;
    }

    method CountInsn(d: Decoded)
      requires Valid()
      modifies repr
      ensures Valid() && fresh(repr - old(repr))
      ensures Value() == old(Value()).(insns := Track(old(Value()).insns, d.insn, d.size))
    {
      hide Ring, ItemsOf, Track;
      TrackRow(insns, d.insn, d.size);
      repr := repr + set n | n in insns.nodes;
    }

    method CountThread(tid: int, size: nat)
      requires Valid()
      modifies repr
      ensures Valid() && fresh(repr - old(repr))
      ensures Value() == old(Value()).(tids := Track(old(Value()).tids, tid, size))
    {
      hide Ring, ItemsOf, Track;
      TrackRow(tids, tid, size);
      repr := repr + set n | n in tids.nodes;
    }

    /** `access_entry_track_write`, with (`store`) and without the instruction list. */
    method TrackWrite(store: bool, tid: int, d: Decoded)
      requires Valid()
      modifies repr
      ensures Valid() && fresh(repr - old(repr))
      ensures Value() == AccessModel.TrackWrite(old(Value()), store, tid, d)
    {
      hide Valid, Value, Track;
      CountTotal(d.size);
      if store {
        CountInsn(d);
      }
      CountThread(tid, d.size);
    }

    /** `access_entry_deinit`: frees the rows. */
    method Deinit()
      requires Valid()
      modifies repr
      ensures Valid() && repr == old(repr) && insns.nodes == [] && tids.nodes == []
    {
      hide Ring, ItemsOf;
      var insnCount := insns.Clear();
      var tidCount := tids.Clear();
    }
  }

  /** A list of entries: `current_entries`, or the local list the worker moves it to. `held` are
      the entries in order and `values` what they stand for. */
  class EntryList {
    const list: List<AccessEntry?>
    ghost var held: seq<AccessEntry>
    ghost var values: seq<Entry>
    ghost var repr: set<object>

    ghost predicate Spined()
      reads this, repr
    {
      && this in repr && list in repr && list.head in repr
      && (forall n :: n in list.nodes ==> n in repr)
      && list.Valid() && |values| == |list.nodes| == |held|
      && (forall i :: 0 <= i < |held| ==> list.nodes[i].item == held[i] && held[i] in repr)
    }

    /** Entry `i` is well-formed, has the recorded value, and shares nothing with the list. */
    ghost predicate Holds(i: nat)
      requires Spined() && i < |held|
      reads this, repr
    {
      var e := held[i];
      && e.repr <= repr && e.Valid() && e.Value() == values[i]
      && this !in e.repr && list !in e.repr && list.head !in e.repr
      && (forall n :: n in list.nodes ==> n !in e.repr)
    }

    ghost predicate Apart(i: nat, j: nat)
      requires i < |held| && j < |held|
      reads this, held
    {
      held[i].repr !! held[j].repr
    }

    ghost predicate Valid()
      reads this, repr
      ensures Valid() ==> this in repr
    {
      && Spined()
      && (forall i :: 0 <= i < |held| ==> Holds(i))
      && (forall i, j :: 0 <= i < j < |held| ==> Apart(i, j))
    }

    constructor ()
      ensures Valid() && fresh(repr) && values == []
    {
      var l := new List<AccessEntry?>();
      list := l;
      values, held := [], [];
      repr := {this, l, l.head};
    }

    lemma Parts()
      requires Valid()
      ensures this in repr && list in repr && list.head in repr && forall n :: n in list.nodes ==> n in repr
      ensures |values| == |list.nodes| == |held|
      ensures forall i :: 0 <= i < |values| ==> list.nodes[i].item != null && list.nodes[i].item.repr <= repr
    {
      forall i | 0 <= i < |values|
        ensures list.nodes[i].item != null && list.nodes[i].item.repr <= repr
      {
        assert Holds(i);
      }
    }

    /** The search for the process's entry. */
    method Find(pid: int) returns (found: ListNode?<AccessEntry?>, ghost k: nat)
      requires Valid()
      ensures found == null <==> !HasPid(values, pid)
      ensures found != null ==> k < |values| && list.nodes[k] == found && values[k].pid == pid
      ensures found != null ==> forall i :: 0 <= i < k ==> values[i].pid != pid
    {
      hide Ring, ItemsOf;
      found := null;
      list.AtIs(0);
      var current := list.head.next;
      k := 0;
      while current != list.head
        invariant k <= |values| && current == At(list.head, list.nodes, k) && found == null
        invariant forall i :: 0 <= i < k ==> values[i].pid != pid
        decreases |values| - k
      {
        assert Holds(k);
        if current.item.pid == pid {
          found := current;
          break;
        }
        list.AtIs(k + 1);
        current := current.next;
        k := k + 1;
      }
      list.AtIs(k);
    }

    /** A new entry, linked before the head. */
    method Append(pid: int)
      requires Valid()
      modifies `held, `values, `repr, list`nodes, list.head`next, list.head`prev, list.nodes`next, list.nodes`prev
      ensures Valid() && fresh(repr - old(repr))
      ensures values == old(values) + [Entry(pid, 0, 0, [], [])]
    {
      hide Ring, ItemsOf, AccessEntry.Valid, AccessEntry.Value;
      var entry := new AccessEntry(pid);
      var node := new ListNode<AccessEntry?>.Record(entry);
      Link(entry, node);
    }

    method Link(entry: AccessEntry, node: ListNode<AccessEntry?>)
      requires Valid() && entry.Valid() && node.item == entry
      requires node !in repr && node !in entry.repr && entry.repr !! repr
      modifies `held, `values, `repr, list`nodes, list.head`next, list.head`prev, list.nodes`next, list.nodes`prev,
               node`next, node`prev
      ensures Valid() && repr == old(repr) + {node} + entry.repr
      ensures values == old(values) + [entry.Value()]
    {
      hide Ring, ItemsOf, AccessEntry.Valid, AccessEntry.Value;
      ghost var n := |values|;
      list.AddBefore(list.head, node, n);
      values, held := values + [entry.Value()], held + [entry];
      repr := repr + {node} + entry.repr;
      forall i | 0 <= i < |values|
        ensures Holds(i)
      {
        if i < n {
          assert old(Holds(i));
        }
      }
      forall i, j | 0 <= i < j < |values|
        ensures Apart(i, j)
      {
        assert old(Holds(i));
        if j < n {
          assert old(Apart(i, j));
        }
      }
    }

    /** Counts a write on entry `k`. */
    method Count(node: ListNode<AccessEntry?>, ghost k: nat, store: bool, tid: int, d: Decoded)
      requires Valid() && k < |values| && node == list.nodes[k] && node.item != null
      modifies `values, `repr, node.item.repr
      ensures Valid() && fresh(repr - old(repr))
      ensures values == old(values)[k := AccessModel.TrackWrite(old(values)[k], store, tid, d)]
    {
      hide Ring, ItemsOf, AccessEntry.Valid, AccessEntry.Value;
      assert Holds(k);
      var entry := node.item;
      entry.TrackWrite(store, tid, d);
      values := values[k := entry.Value()];
      repr := repr + entry.repr;
      forall i | 0 <= i < |values|
        ensures Holds(i) && (i != k ==> held[i].repr == old(held[i].repr) <= old(repr))
      {
        assert old(Holds(i));
        if i < k {
          assert old(Apart(i, k));
        } else if i > k {
          assert old(Apart(k, i));
        }
      }
      forall i, j | 0 <= i < j < |values|
        ensures Apart(i, j)
      {
        assert old(Apart(i, j));
        assert fresh(entry.repr - old(entry.repr));
      }
    }

    /** `access_accounting_write`, under the lock: `decoded` is what reading and decoding the
        instruction at the write's address yields. */
    method Write(store: bool, pid: int, tid: int, decoded: Option<Decoded>) returns (ok: bool)
      requires Valid()
      modifies repr
      ensures Valid() && fresh(repr - old(repr))
      ensures ok == decoded.Some?
      ensures values == AccessModel.Write(old(values), store, pid, tid, decoded)
    {
      hide Valid, Holds, AccessEntry.Valid;
      Parts();
      var found, k := Find(pid);
      if found == null {
        k := |values|;
        Append(pid);
        found := Last();
      }
      assert values == Ensure(old(values), pid);
      if decoded.None? {
        return false;
      }
      TrackPidAt(values, store, pid, tid, decoded.value, k);
      Parts();
      Count(found, k, store, tid, decoded.value);
      ok := true;
    }

    /** The entry just linked before the head. */
    method Last() returns (node: ListNode<AccessEntry?>)
      requires Valid() && values != []
      ensures node == list.nodes[|values| - 1] && node.item != null
    {
      hide Ring, ItemsOf, AccessEntry.Valid, AccessEntry.Value;
      assert Holds(|values| - 1);
      list.LastIs();
      node := list.head.prev;
    }

    /** The entries of another list have nothing to do with this one, nor with its head. */
    lemma Outside(from: EntryList)
      requires Valid() && from.Valid() && repr !! from.repr
      ensures list != from.list && list.head !in from.list.nodes && from.list.head !in from.list.nodes
      ensures forall i :: 0 <= i < |from.held| ==>
                && from.held[i].repr <= from.repr - {from, from.list, from.list.head}
                && this !in from.held[i].repr && list !in from.held[i].repr && list.head !in from.held[i].repr
    {
      hide Ring, AccessEntry.Valid, AccessEntry.Value;
      from.list.HeadOutside();
      forall i | 0 <= i < |from.held|
        ensures from.held[i].repr <= from.repr - {from, from.list, from.list.head}
      {
        assert from.Holds(i);
      }
    }

    /** The worker takes over every entry of `from` in one step, under the lock. */
    method Steal(from: EntryList)
      requires Valid() && values == [] && from.Valid() && repr !! from.repr
      modifies `held, `values, `repr, list`nodes, list.head`next, list.head`prev,
               from`held, from`values, from`repr, from.list`nodes, from.list.head`next, from.list.head`prev,
               from.list.nodes`next, from.list.nodes`prev
      ensures Valid() && values == old(from.values) && list.nodes == old(from.list.nodes)
      ensures from.Valid() && from.values == []
      ensures repr !! from.repr && repr + from.repr == old(repr + from.repr) && from.repr <= old(from.repr)
    {
      hide Ring, ItemsOf, AccessEntry.Valid, AccessEntry.Value;
      Outside(from);
      ghost var kept := {from, from.list, from.list.head};
      SetMove(repr, from.repr, kept);
      Relink(from);
      repr, from.repr := repr + (from.repr - kept), kept;
      assert Spined();
      forall i | 0 <= i < |held|
        ensures Holds(i)
      {
        assert old(from.Holds(i));
      }
      forall i, j | 0 <= i < j < |held|
        ensures Apart(i, j)
      {
        assert old(from.Apart(i, j));
      }
    }

    /** The relinking itself. The entries are not touched. */
    method Relink(from: EntryList)
      requires Valid() && values == [] && from.Valid() && repr !! from.repr
      modifies `held, `values, list`nodes, list.head`next, list.head`prev,
               from`held, from`values, from.list`nodes, from.list.head`next, from.list.head`prev,
               from.list.nodes`next, from.list.nodes`prev
      ensures list.Valid() && list.nodes == old(from.list.nodes) && held == old(from.held) && values == old(from.values)
      ensures from.list.Valid() && from.list.nodes == [] && from.held == [] && from.values == []
      ensures |held| == |values| == |list.nodes| == |old(from.held)|
      ensures forall i :: 0 <= i < |held| ==>
                && list.nodes[i].item == held[i] && held[i].Valid() && held[i].Value() == values[i]
                && held[i].repr == old(from.held[i].repr)
    {
      hide Ring, ItemsOf, AccessEntry.Valid, AccessEntry.Value;
      Outside(from);
      list.TakeAll(from.list);
      values, held := from.values, from.held;
      from.values, from.held := [], [];
      forall i | 0 <= i < |held|
        ensures held[i].Valid() && held[i].Value() == values[i] && held[i].repr == old(from.held[i].repr)
      {
        assert old(from.Holds(i));
      }
    }

    /** Unlinks the first entry. */
    method Pop(node: ListNode<AccessEntry?>)
      requires Valid() && values != [] && node == list.nodes[0]
      modifies `held, `values, list`nodes, list.head`next, list.head`prev, list.nodes`next, list.nodes`prev
      ensures Valid() && values == old(values)[1..] && held == old(held)[1..] && list.nodes == old(list.nodes)[1..]
      ensures node.next == old(node.next)
    {
      hide Ring, ItemsOf, AccessEntry.Valid, AccessEntry.Value;
      Unlink(node);
      assert Spined();
      forall i | 0 <= i < |values|
        ensures Holds(i)
      {
        assert old(Holds(i + 1));
      }
      forall i, j | 0 <= i < j < |values|
        ensures Apart(i, j)
      {
        var i', j' := i + 1, j + 1;
        assert old(Apart(i', j'));
      }
    }

    /** The unlinking itself. The entries are not touched. */
    method Unlink(node: ListNode<AccessEntry?>)
      requires Valid() && values != [] && node == list.nodes[0]
      modifies `held, `values, list`nodes, list.head`next, list.head`prev, list.nodes`next, list.nodes`prev
      ensures list.Valid() && list.nodes == old(list.nodes)[1..] && held == old(held)[1..] && values == old(values)[1..]
      ensures node.next == old(node.next) && |held| == |values| == |list.nodes| == |old(held)| - 1
      ensures forall i :: 0 <= i < |held| ==>
                && list.nodes[i].item == held[i] && held[i].Valid() && held[i].Value() == values[i]
                && held[i].repr == old(held[i + 1].repr)
    {
      hide Ring, ItemsOf, AccessEntry.Valid, AccessEntry.Value;
      list.Remove(node, 0);
      values, held := values[1..], held[1..];
      forall i | 0 <= i < |held|
        ensures held[i].Valid() && held[i].Value() == values[i] && held[i].repr == old(held[i + 1].repr)
      {
        assert old(Holds(i + 1));
      }
    }

    /** An entry that has nothing to do with the list or its other entries is taken apart. */
    ghost predicate Loose(entry: AccessEntry)
      reads this, repr
    {
      && Valid() && entry in repr && entry.repr <= repr && entry.Valid()
      && this !in entry.repr && list !in entry.repr && list.head !in entry.repr
      && (forall n :: n in list.nodes ==> n !in entry.repr)
      && (forall i :: 0 <= i < |held| ==> held[i].repr !! entry.repr)
    }

    method Release(entry: AccessEntry)
      requires Loose(entry)
      modifies entry.repr
      ensures Valid() && unchanged(this) && unchanged(list)
    {
      hide Ring, ItemsOf, AccessEntry.Valid, AccessEntry.Value;
      entry.Deinit();
      assert Spined();
      forall i | 0 <= i < |held|
        ensures Holds(i) && held[i].repr == old(held[i].repr)
      {
        assert old(Holds(i));
      }
      forall i, j | 0 <= i < j < |held|
        ensures Apart(i, j)
      {
        assert old(Apart(i, j));
      }
    }

    /** What an iteration finds behind the head. */
    lemma FirstIs()
      requires Valid()
      ensures |values| == |list.nodes|
      ensures values == [] <==> list.head.next == list.head
      ensures values != [] ==>
                && list.nodes[0] == list.head.next && list.nodes[0].item != null
                && list.nodes[0].item.Valid() && list.nodes[0].item.Value() == values[0]
                && list.nodes[0].item.repr <= repr
      ensures |values| == 1 ==> list.nodes[0].next == list.head
      ensures |values| > 1 ==> list.nodes[0].next == list.nodes[1] && list.nodes[1] != list.head
    {
      hide Ring, AccessEntry.Valid, AccessEntry.Value;
      list.AtIs(0);
      list.AtIs(1);
      if values != [] {
        assert Holds(0);
      }
    }

    /** The first entry, seen from the rest of the list. */
    lemma FirstLoose()
      requires Valid() && held != []
      ensures list.nodes[0].item == held[0] && held[0].Valid() && held[0].repr <= repr && held[0] in repr
      ensures this !in held[0].repr && list !in held[0].repr && list.head !in held[0].repr
      ensures forall n :: n in list.nodes ==> n !in held[0].repr
      ensures forall i :: 0 < i < |held| ==> held[i].repr !! held[0].repr
    {
      hide Ring, AccessEntry.Valid, AccessEntry.Value;
      assert Holds(0);
      forall i | 0 < i < |held|
        ensures held[i].repr !! held[0].repr
      {
        assert Apart(0, i);
      }
    }

    /** `list_remove`, `access_entry_deinit` and `free` of the first entry. */
    method Free(node: ListNode<AccessEntry?>)
      requires Valid() && values != [] && node == list.nodes[0]
      modifies repr
      ensures Valid() && repr == old(repr)
      ensures values == old(values)[1..] && list.nodes == old(list.nodes)[1..]
    {
      hide Ring, ItemsOf, AccessEntry.Valid, AccessEntry.Value, Holds, Spined, Apart;
      Parts();
      FirstLoose();
      ghost var first := held[0];
      Pop(node);
      assert Loose(first);
      Release(node.item);
    }
  }

  lemma SetMove<T>(a: set<T>, b: set<T>, kept: set<T>)
    requires a !! b && kept <= b
    ensures a + (b - kept) !! kept && a + (b - kept) + kept == a + b
  {
  }
}
