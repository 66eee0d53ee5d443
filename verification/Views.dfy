/** Address translation through mapped files, on its linked lists. */
module Views {
  import opened Chains
  import opened Options
  import opened Regions
  import opened ViewsModel

  lemma GetPopulates(m: Mock, address: Word, file0: MapsFile, file1: MapsFile, mmap: Mapper, now: Mock)
    requires FirstView(m.views, address).None? && First(now.regions, address).Some?
    requires now == m || (First(m.regions, address).None? && Refresh(m.regions, file0) == Some(now.regions)
                          && now == Mock(now.regions, [], []))
    ensures ViewsModel.Get(m, address, file0, file1, mmap) ==
            Populate(now, First(now.regions, address).value, address, mmap)
  {
  }

  /** `struct memmock_context` */
  class MemMock {
    const inspector: Inspector
    var cache: ChainNode?<View>
    ghost var nodes: seq<ChainNode<View>>
    /** The region each view was made from. */
    ghost var sources: seq<Region>

    ghost predicate Valid()
      reads this, nodes`next, inspector, inspector.nodes`next
    {
      Chain(cache, nodes) && inspector.Valid() && |sources| == |nodes|
    }

    ghost function Abs(): Mock
      reads this, nodes`item, inspector, inspector.nodes`item
    {
      Mock(inspector.Regions(), ItemsOf(nodes), sources)
    }

    constructor (pid: int)
      ensures Valid() && fresh(inspector) && nodes == [] && inspector.nodes == []
      ensures Abs() == INITIAL
    {
      inspector := new Inspector(pid);
      cache := null;
      nodes, sources := [], [];
    }

    /** `memmock_memview_cache_lookup` */
    method CacheLookup(address: Word) returns (found: ChainNode?<View>, ghost k: nat)
      requires Valid()
      ensures found == null <==> FirstView(Abs().views, address).None?
      ensures found != null ==> FirstView(Abs().views, address) == Some(k) && k < |nodes| && nodes[k] == found
      ensures found != null ==> found in nodes && Hit(found.item, address)
    {
      ghost var views := Abs().views;
      found, k := cache, 0;
      if found == null {
        return;
      }
      while !Hit(found.item, address)
        invariant k < |nodes| && found == nodes[k]
        invariant forall i :: 0 <= i < k ==> !Hit(views[i], address)
        decreases |nodes| - k
      {
        if found.next == null {
          FirstViewIs(views, address, k + 1);
          return null, 0;
        }
        found := found.next;
        k := k + 1;
      }
      FirstViewIs(views, address, k);
    }

    /** `memmock_memview_cache_invalidate`: every view is released once. */
    method Invalidate() returns (count: nat)
      requires Valid()
      modifies `cache, `nodes, `sources
      ensures Valid() && nodes == [] && sources == [] && count == |old(nodes)|
      ensures Abs() == Mock(old(Abs()).regions, [], [])
    {
      var current := cache;
      count := 0;
      while current != null
        invariant count <= |nodes| && current == Nth(nodes, count)
        decreases |nodes| - count
      {
        current := current.next;
        count := count + 1;
      }
      cache := null;
      nodes, sources := [], [];
    }

    /** `memmock_memview_cache_append`: at the end of the list. */
    method Append(v: View, ghost source: Region)
      requires Valid()
      modifies `cache, `nodes, `sources, nodes`next
      ensures Valid() && Abs() == Mock(old(Abs()).regions, old(Abs()).views + [v], old(Abs()).sources + [source])
      ensures forall j :: 0 <= j < |nodes| ==> nodes[j] in old(nodes) || fresh(nodes[j])
    {
      hide ItemsOf, Chain;
      ghost var views := Abs().views;
      var entry := new ChainNode(v);
      Link(entry);
      sources := sources + [source];
      assert ItemsOf(nodes) == views + [v];
    }

    method Link(entry: ChainNode<View>)
      requires Chain(cache, nodes) && entry.next == null && entry !in nodes
      modifies `cache, `nodes, nodes`next
      ensures Chain(cache, nodes) && nodes == old(nodes) + [entry]
    {
      if cache == null {
        cache := entry;
      } else {
        var last := Last();
        last.next := entry;
      }
      nodes := nodes + [entry];
    }

    method Last() returns (last: ChainNode<View>)
      requires Chain(cache, nodes) && cache != null
      ensures nodes != [] && last == nodes[|nodes| - 1]
      ensures forall j :: 0 <= j < |nodes| - 1 ==> nodes[j] != last
    {
      last := cache;
      ghost var k := 0;
      while last.next != null
        invariant k < |nodes| && last == nodes[k]
        decreases |nodes| - k
      {
        last := last.next;
        k := k + 1;
      }
      forall j | 0 <= j < k
        ensures nodes[j] != nodes[k]
      {
        ChainDistinct(cache, nodes, j, k);
      }
    }

    /** `memmock_memview_cache_populate`: NULL when the file of the region cannot be opened, and not
        `defined` when it is open but cannot be mapped. */
    method CachePopulate(region: Region, mmap: Mapper) returns (defined: bool, view: Option<View>)
      requires Valid()
      modifies `cache, `nodes, `sources, nodes`next
      ensures defined <==> !MapFails(mmap(region))
      ensures Valid() && view == if IsMapped(mmap(region)) then Some(ViewOf(region, mmap(region).word)) else None
      ensures Abs() == Populated(old(Abs()), region, mmap)
      ensures forall j :: 0 <= j < |nodes| ==> nodes[j] in old(nodes) || fresh(nodes[j])
    {
      hide ItemsOf, Chain;
      var start := mmap(region);
      if start.Unopened? {
        return true, None;
      }
      if start.word == 0 || start.word == WORD - 1 {
        return false, None;
      }
      defined, view := true, Some(View(region.path, start.word, region.address, region.length));
      Append(view.value, region);
    }

    /** The end of a successful lookup in `memmock_get`: the region is mapped and answers. */
    method Answer(region: Region, address: Word, mmap: Mapper) returns (defined: bool, pointer: Word)
      requires Valid()
      modifies `cache, `nodes, `sources, nodes`next
      ensures Valid() && (defined <==> Populate(old(Abs()), region, address, mmap).Some?)
      ensures defined ==> Populate(old(Abs()), region, address, mmap) == Some((Abs(), pointer))
      ensures forall j :: 0 <= j < |nodes| ==> nodes[j] in old(nodes) || fresh(nodes[j])
    {
      hide ItemsOf, Chain, Translate;
      var view;
      defined, view := CachePopulate(region, mmap);
      pointer := if view.None? then 0 else Translate(view.value, address);
    }

    /** The end of a miss in `memmock_get`: the regions are read again and no view survives. */
    method Renew(file: MapsFile) returns (defined: bool)
      requires Valid()
      modifies `cache, `nodes, `sources, inspector, inspector.nodes`next, inspector.nodes`item
      ensures defined <==> Refresh(old(Abs()).regions, file).Some?
      ensures if defined then nodes == [] else nodes == old(nodes)
      ensures defined ==> Valid() && Abs() == Mock(Refresh(old(Abs()).regions, file).value, [], [])
      ensures forall j :: 0 <= j < |inspector.nodes| ==>
                inspector.nodes[j] in old(inspector.nodes) || fresh(inspector.nodes[j])
    {
      hide ItemsOf, Chain, Refreshed, DoubleFrees;
      var ok;
      defined, ok := inspector.Update(file);
      if defined {
        var count := Invalidate();
      }
    }

    /** `memmock_get` */
    method Get(address: Word, file0: MapsFile, file1: MapsFile, mmap: Mapper) returns (defined: bool, pointer: Word)
      requires Valid()
      modifies this, nodes`next, inspector, inspector.nodes`next, inspector.nodes`item
      ensures defined <==> ViewsModel.Get(old(Abs()), address, file0, file1, mmap).Some?
      ensures defined ==> Valid() && ViewsModel.Get(old(Abs()), address, file0, file1, mmap) == Some((Abs(), pointer))
      ensures forall j :: 0 <= j < |nodes| ==> nodes[j] in old(nodes) || fresh(nodes[j])
      ensures forall j :: 0 <= j < |inspector.nodes| ==>
                inspector.nodes[j] in old(inspector.nodes) || fresh(inspector.nodes[j])
    {
      hide ItemsOf, Chain, Translate, Hit, First, FirstView, Refresh, Populate;
      var memview, k := CacheLookup(address);
      if memview != null {
        return true, Translate(memview.item, address);
      }
      defined, pointer := Miss(address, file0, file1, mmap);
    }

    /** The loop of `memmock_get`. */
    method Miss(address: Word, file0: MapsFile, file1: MapsFile, mmap: Mapper) returns (defined: bool, pointer: Word)
      requires Valid() && FirstView(Abs().views, address).None?
      modifies this, nodes`next, inspector, inspector.nodes`next, inspector.nodes`item
      ensures defined <==> ViewsModel.Get(old(Abs()), address, file0, file1, mmap).Some?
      ensures defined ==> Valid() && ViewsModel.Get(old(Abs()), address, file0, file1, mmap) == Some((Abs(), pointer))
      ensures forall j :: 0 <= j < |nodes| ==> nodes[j] in old(nodes) || fresh(nodes[j])
      ensures forall j :: 0 <= j < |inspector.nodes| ==>
                inspector.nodes[j] in old(inspector.nodes) || fresh(inspector.nodes[j])
    {
      hide ItemsOf, Chain, Translate, Hit, First, FirstView, Refresh, Populate;
      ghost var m := Abs();
      for retry := 0 to 2
        invariant Valid()
        invariant if retry == 0 then Abs() == m && nodes == old(nodes) else nodes == []
        invariant retry == 1 ==>
                    && First(m.regions, address).None? && Refresh(m.regions, file0) == Some(Abs().regions)
                    && Abs() == Mock(Abs().regions, [], [])
        invariant retry == 2 ==> ViewsModel.Get(m, address, file0, file1, mmap) == Some((Abs(), 0))
        invariant forall j :: 0 <= j < |inspector.nodes| ==>
                    inspector.nodes[j] in old(inspector.nodes) || fresh(inspector.nodes[j])
      {
        var memregion, i := inspector.LookupRegion(address);
        if memregion != null {
          assert inspector.Regions() == Abs().regions && First(Abs().regions, address) == Some(memregion.item);
          GetPopulates(m, address, file0, file1, mmap, Abs());
          defined, pointer := Answer(memregion.item, address, mmap);
          return;
        }
        defined := Renew(if retry == 0 then file0 else file1);
        if !defined {
          return false, 0;
        }
      }
      return true, 0;
    }

    /** `memmock_get_label` */
    method GetLabel(address: Word, file0: MapsFile, file1: MapsFile) returns (defined: bool, path: Option<string>)
      requires Valid()
      modifies inspector, inspector.nodes`next, inspector.nodes`item
      ensures defined <==> Label(old(Abs()), address, file0, file1).Some?
      ensures defined ==> Valid() && Label(old(Abs()), address, file0, file1) == Some((Abs(), path))
      ensures forall j :: 0 <= j < |inspector.nodes| ==>
                inspector.nodes[j] in old(inspector.nodes) || fresh(inspector.nodes[j])
    {
      hide ItemsOf, Chain, Looked;
      var memregion;
      defined, memregion := inspector.LookupUpdate(address, file0, file1);
      path := if !defined || memregion == null then None else Some(memregion.item.path);
    }
  }
}
