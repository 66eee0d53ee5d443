/** The memory regions of a process, as read from its maps file: the list that
    `meminspect_update` refreshes in place, and the lookup of an address in it. */
module Regions {
  import opened Chains
  import opened Options

  /** Addresses and sizes are machine words. */
  const WORD := 0x1_0000_0000_0000_0000
  type Word = x: int | 0 <= x < WORD

  datatype Region = Region(address: Word, length: Word, read: bool, write: bool, execute: bool, isPrivate: bool,
                           major: int, minor: int, inode: int, offset: int, path: string)

  /** One attempt to read the maps file. A line is `None` when it does not parse; `atEnd` is false
      when reading stopped on an error instead of the end of the file. */
  datatype MapsFile = MapsFile(pathFits: bool, opens: bool, lines: seq<Option<Region>>, atEnd: bool, closes: bool) {
    predicate Readable() {
      pathFits && opens
    }

    predicate Succeeds() {
      Readable() && (forall i :: 0 <= i < |lines| ==> lines[i].Some?) && atEnd && closes
    }

    function Regions(): (regions: seq<Region>)
      requires Succeeds()
      ensures |regions| == |lines| && forall i :: 0 <= i < |lines| ==> lines[i] == Some(regions[i])
    {
      seq(|lines|, i requires 0 <= i < |lines| => lines[i].value)
    }
  }

  /** The list after an attempt: untouched when the file could not be opened, and otherwise the
      lines of the file, or nothing at all. */
  function Refreshed(regions: seq<Region>, file: MapsFile): seq<Region> {
    if !file.Readable() then regions
    else if file.Succeeds() then file.Regions()
    else []
  }

  /** The first line that does not parse, or the number of lines. */
  function FirstBad(lines: seq<Option<Region>>): (i: nat)
    ensures i <= |lines| && (i < |lines| ==> lines[i].None?) && forall j :: 0 <= j < i ==> lines[j].Some?
  {
    if lines == [] || lines[0].None? then 0 else 1 + FirstBad(lines[1..])
  }

  /** The attempt ends in undefined behaviour: the label of a node that is used again is released,
      the line does not replace it, and then the whole list is released, that label included. */
  predicate DoubleFrees(n: nat, file: MapsFile) {
    file.Readable() && FirstBad(file.lines) < |file.lines| && FirstBad(file.lines) < n
  }

  /** The list after an attempt, if the attempt is defined. */
  function Refresh(regions: seq<Region>, file: MapsFile): Option<seq<Region>> {
    if DoubleFrees(|regions|, file) then None else Some(Refreshed(regions, file))
  }

  /** What a refresh comes to, where line `bad` is the first that does not parse, if there is one: a
      file that cannot be opened leaves the list alone; one that is read to the end gives its lines;
      after any other failure the list is empty, unless line `bad` falls on a region that was listed
      before. */
  lemma RefreshExact(regions: seq<Region>, file: MapsFile, bad: nat)
    requires bad <= |file.lines| && (bad < |file.lines| ==> file.lines[bad] == None)
    requires forall i :: 0 <= i < bad ==> file.lines[i] != None
    ensures var r := Refresh(regions, file);
            if !file.pathFits || !file.opens then r == Some(regions)
            else if bad < |file.lines| then r == if bad < |regions| then None else Some([])
            else if !file.atEnd || !file.closes then r == Some([])
            else
              && r.Some? && |r.value| == |file.lines|
              && forall i :: 0 <= i < |r.value| ==> file.lines[i] == Some(r.value[i])
  {
    assert file.Readable() && bad < |file.lines| ==> !file.Succeeds();
  }

  /** One region was listed, and then the file holds one line that does not parse. */
  lemma DoubleFreed(r: Region)
    ensures Refresh([r], MapsFile(true, true, [None], true, true)) == None
    ensures Refresh([], MapsFile(true, true, [None], true, true)) == Some([])
  {
  }

  /** `meminspector_range_matches_address`, whose end address wraps. */
  predicate Matches(r: Region, address: Word) {
    var end := (r.address + r.length) % WORD;
    r.address <= address && end > address
  }

  /** A region matches the addresses from its start to its end; one that reaches the end of the
      address space matches nothing. */
  lemma MatchesIsRange(r: Region, address: Word)
    ensures Matches(r, address) <==>
              r.address + r.length < 0x1_0000_0000_0000_0000 && r.address <= address < r.address + r.length
  {
  }

  /** The first region in list order that contains the address. */
  function First(regions: seq<Region>, address: Word): Option<Region> {
    if regions == [] then None
    else if Matches(regions[0], address) then Some(regions[0])
    else First(regions[1..], address)
  }

  lemma {:induction false} FirstIs(regions: seq<Region>, address: Word, k: nat)
    requires k <= |regions| && forall i :: 0 <= i < k ==> !Matches(regions[i], address)
    requires k < |regions| ==> Matches(regions[k], address)
    ensures First(regions, address) == if k < |regions| then Some(regions[k]) else None
  {
    if k > 0 {
      FirstIs(regions[1..], address, k - 1);
    }
  }

  lemma {:induction false} FirstFound(regions: seq<Region>, address: Word)
    ensures First(regions, address).None? <==> forall i :: 0 <= i < |regions| ==> !Matches(regions[i], address)
    ensures First(regions, address).Some? ==>
            First(regions, address).value in regions && Matches(First(regions, address).value, address)
  {
    if regions != [] {
      FirstFound(regions[1..], address);
      assert regions == [regions[0]] + regions[1..];
    }
  }

  /** The list and the answer after a lookup that refreshes the list on every miss; nothing, if
      one of the refreshes is undefined. */
  function Looked(regions: seq<Region>, address: Word, file0: MapsFile, file1: MapsFile):
    Option<(seq<Region>, Option<Region>)>
  {
    if First(regions, address).Some? then Some((regions, First(regions, address)))
    else
      match Refresh(regions, file0)
      case None => None
      case Some(again) =>
        if First(again, address).Some? then Some((again, First(again, address)))
        else
          match Refresh(again, file1)
          case None => None
          case Some(last) => Some((last, None))
  }

  /** Position `k` holds the first region that contains the address; there is none if `k` is the
      number of regions. */
  ghost predicate FirstAt(regions: seq<Region>, address: Word, k: nat) {
    && k <= |regions| && (forall i :: 0 <= i < k ==> !Matches(regions[i], address))
    && (k < |regions| ==> Matches(regions[k], address))
  }

  /** A region that is listed answers, and the file is not read. */
  lemma LookedListed(regions: seq<Region>, address: Word, file0: MapsFile, file1: MapsFile, k: nat)
    requires FirstAt(regions, address, k) && k < |regions|
    ensures Looked(regions, address, file0, file1) == Some((regions, Some(regions[k])))
  {
    FirstIs(regions, address, k);
  }

  /** An address that no listed region contains is looked for once more in what the file says then. */
  lemma LookedRefreshed(regions: seq<Region>, address: Word, file0: MapsFile, file1: MapsFile, k: nat)
    requires FirstAt(regions, address, |regions|) && file0.Succeeds()
    requires FirstAt(file0.Regions(), address, k) && k < |file0.Regions()|
    ensures !DoubleFrees(|regions|, file0)
    ensures Looked(regions, address, file0, file1) == Some((file0.Regions(), Some(file0.Regions()[k])))
  {
    FirstIs(regions, address, |regions|);
    FirstIs(file0.Regions(), address, k);
  }

  /** If that finds nothing either there is no answer, but the file is read a second time. */
  lemma LookedNowhere(regions: seq<Region>, address: Word, file0: MapsFile, file1: MapsFile)
    requires FirstAt(regions, address, |regions|)
    ensures var looked, again := Looked(regions, address, file0, file1), Refresh(regions, file0);
            && (again.None? ==> looked.None?)
            && (again.Some? && FirstAt(again.value, address, |again.value|) ==>
                  match Refresh(again.value, file1)
                  case None => looked.None?
                  case Some(last) => looked == Some((last, None)))
  {
    FirstIs(regions, address, |regions|);
    if Refresh(regions, file0).Some? {
      var again := Refresh(regions, file0).value;
      if FirstAt(again, address, |again|) {
        FirstIs(again, address, |again|);
      }
    }
  }

  /** `struct meminspect_context`. A label in `dangling` has been released and not replaced. */
  class Inspector {
    const pid: int
    var cache: ChainNode?<Region>
    ghost var nodes: seq<ChainNode<Region>>
    ghost var dangling: set<ChainNode<Region>>

    ghost predicate Valid()
      reads this, nodes`next
    {
      Chain(cache, nodes) && Live(0)
    }

    /** The labels from position `i` on may be released. */
    ghost predicate Live(i: nat)
      reads this
    {
      forall j :: i <= j < |nodes| ==> nodes[j] !in dangling
    }

    ghost function Regions(): seq<Region>
      reads `nodes, nodes`item
    {
      ItemsOf(nodes)
    }

    constructor (pid: int)
      ensures Valid() && nodes == [] && this.pid == pid
    {
      this.pid := pid;
      cache := null;
      nodes, dangling := [], {};
    }

    method LookupRegion(address: Word) returns (found: ChainNode?<Region>, ghost k: nat)
      requires Valid()
      ensures First(Regions(), address) == if found == null then None else Some(found.item)
      ensures found != null ==> k < |nodes| && nodes[k] == found
    {
      ghost var regions := Regions();
      found, k := cache, 0;
      if found == null {
        return;
      }
      while !Matches(found.item, address)
        invariant k < |nodes| && found == nodes[k]
        invariant forall i :: 0 <= i < k ==> !Matches(regions[i], address)
        decreases |nodes| - k
      {
        if found.next == null {
          FirstIs(regions, address, k + 1);
          return null, 0;
        }
        found := found.next;
        k := k + 1;
      }
      FirstIs(regions, address, k);
    }

    /** `memregion_deinit`: a label is released once. */
    method RegionDeinit(node: ChainNode<Region>)
      requires node !in dangling
      modifies `dangling
      ensures dangling == old(dangling) + {node}
    {
      dangling := dangling + {node};
    }

    /** Frees the list from position `i` on, each node and each label once. */
    method CacheFree(range: ChainNode?<Region>, ghost i: nat) returns (count: nat)
      requires Chain(cache, nodes) && i <= |nodes| && range == Nth(nodes, i) && Live(i)
      modifies `dangling
      ensures count == |nodes| - i
      ensures forall j :: 0 <= j < i && nodes[j] !in old(dangling) ==> nodes[j] !in dangling
    {
      hide Chain;
      count := 0;
      var current := range;
      while current != null
        invariant i + count <= |nodes| && current == Nth(nodes, i + count) && Live(i + count)
        invariant forall j :: 0 <= j < i && nodes[j] !in old(dangling) ==> nodes[j] !in dangling
        decreases |nodes| - count
      {
        NodeAt(cache, nodes, i + count);
        Apart(i + count);
        RegionDeinit(current);
        current := current.next;
        count := count + 1;
      }
    }

    lemma Apart(k: nat)
      requires Chain(cache, nodes) && k < |nodes|
      ensures forall j :: 0 <= j < |nodes| && j != k ==> nodes[j] != nodes[k]
    {
      forall j | 0 <= j < |nodes| && j != k
        ensures nodes[j] != nodes[k]
      {
        if j < k {
          ChainDistinct(cache, nodes, j, k);
        } else {
          ChainDistinct(cache, nodes, k, j);
        }
      }
    }

    method Drop()
      requires Valid()
      modifies this
      ensures Valid() && nodes == []
    {
      var count := CacheFree(cache, 0);
      cache := null;
      nodes := [];
    }

    /** The node for line `i`: the one already there, whose label is released, or a new one linked at
        the end, which has no label yet. */
    method NodeForLine(previous: ChainNode?<Region>, current: ChainNode?<Region>, ghost i: nat)
      returns (entry: ChainNode<Region>)
      requires Valid() && i <= |nodes| && current == Nth(nodes, i) && (i == 0 ==> previous == null)
      requires i > 0 ==> previous == nodes[i - 1]
      modifies this, nodes`next
      ensures Chain(cache, nodes) && i < |nodes| && nodes[i] == entry
      ensures nodes == if i < |old(nodes)| then old(nodes) else old(nodes) + [entry]
      ensures entry in old(nodes) || fresh(entry)
      ensures entry in dangling <==> current != null
      ensures forall j :: 0 <= j < |nodes| && j != i ==> nodes[j] !in dangling
    {
      if current == null {
        entry := new ChainNode(BLANK);
        if previous == null {
          cache := entry;
        } else {
          NodeAt(cache, nodes, i - 1);
          previous.next := entry;
        }
        nodes := nodes + [entry];
      } else {
        entry := current;
        Apart(i);
        RegionDeinit(entry);
      }
    }

    /** Cuts the list off before position `i`. */
    method Truncate(previous: ChainNode?<Region>, current: ChainNode?<Region>, ghost i: nat)
      requires Valid() && i <= |nodes| && current == Nth(nodes, i) && (i == 0 ==> previous == null)
      requires i > 0 ==> previous == nodes[i - 1]
      modifies this, nodes`next
      ensures Valid() && nodes == old(nodes)[..i]
    {
      hide ItemsOf, Chain;
      if current != null {
        var count := CacheFree(current, i);
        CutLink(previous, i);
      } else {
        WholeList(i);
      }
      nodes := nodes[..i];
    }

    method CutLink(previous: ChainNode?<Region>, ghost i: nat)
      requires Chain(cache, nodes) && i <= |nodes| && previous == if i == 0 then null else nodes[i - 1]
      modifies `cache, nodes`next
      ensures Chain(cache, nodes[..i])
    {
      if previous == null {
        cache := null;
      } else {
        NodeAt(cache, nodes, i - 1);
        previous.next := null;
      }
      CutAt(cache, nodes, i);
    }

    lemma WholeList(i: nat)
      requires Chain(cache, nodes) && i <= |nodes| && Nth(nodes, i) == null
      ensures i == |nodes| && nodes[..i] == nodes
    {
    }

    /** The first `i` lines have been parsed into the first `i` nodes; the nodes that were there
        before are used again, in their places, before new ones are. */
    ghost predicate Reading(lines: seq<Option<Region>>, i: nat, previous: ChainNode?<Region>,
                            current: ChainNode?<Region>, was: seq<ChainNode<Region>>)
      reads this, nodes`next, nodes`item
    {
      && Valid() && i <= |nodes| && i <= |lines| && Reuses(was) && |was| <= |nodes|
      && current == Nth(nodes, i) && (if i == 0 then previous == null else previous == nodes[i - 1])
      && (|nodes| == |was| || |nodes| == i)
      && forall j :: 0 <= j < i ==> lines[j] == Some(nodes[j].item)
    }

    ghost predicate Reuses(was: seq<ChainNode<Region>>)
      reads this
    {
      forall j :: 0 <= j < |nodes| && j < |was| ==> nodes[j] == was[j]
    }

    /** One line of the file, parsed into its node. If it does not parse, the label of a node that
        was used again is left dangling. */
    method ReadLine(previous: ChainNode?<Region>, current: ChainNode?<Region>, line: Option<Region>,
                    ghost lines: seq<Option<Region>>, ghost i: nat, ghost was: seq<ChainNode<Region>>)
      returns (parsed: bool, entry: ChainNode<Region>, next: ChainNode?<Region>)
      requires Reading(lines, i, previous, current, was) && i < |lines| && line == lines[i]
      modifies this, nodes`next, nodes`item
      ensures parsed == line.Some? && (current != null <==> i < |was|)
      ensures parsed ==> Reading(lines, i + 1, entry, next, was)
      ensures !parsed ==> (current != null <==> i < |nodes| && nodes[i] in dangling) && (current == null ==> Valid())
      ensures forall j :: 0 <= j < |nodes| ==> nodes[j] in old(nodes) || fresh(nodes[j])
    {
      hide Chain, ItemsOf;
      entry := NodeForLine(previous, current, i);
      NodeAt(cache, nodes, i);
      parsed := line.Some?;
      if parsed {
        entry.item := line.value;
        dangling := dangling - {entry};
      }
      next := entry.next;
    }

    lemma FirstNode()
      requires Valid()
      ensures cache == Nth(nodes, 0)
    {
    }

    /** `meminspect_update`. It is not `defined` exactly when the first line that does not parse
        falls on a node that was there before; freeing the list would release that node's label
        again. */
    method Update(file: MapsFile) returns (defined: bool, ok: bool)
      requires Valid()
      modifies this, nodes`next, nodes`item
      ensures defined <==> !DoubleFrees(|old(nodes)|, file)
      ensures defined ==> Valid() && ok == file.Succeeds()
      ensures defined ==> Refresh(old(Regions()), file) == Some(Regions())
      ensures !defined ==> exists n :: n in nodes && n in dangling
      ensures defined ==> Reuses(old(nodes))
      ensures forall j :: 0 <= j < |nodes| ==> nodes[j] in old(nodes) || fresh(nodes[j])
    {
      hide Chain, ItemsOf;
      if !file.pathFits || !file.opens {
        return true, false;
      }
      ghost var was := nodes;
      var previous: ChainNode?<Region> := null;
      var current := cache;
      FirstNode();
      for i := 0 to |file.lines|
        invariant Reading(file.lines, i, previous, current, was) && i <= FirstBad(file.lines)
        invariant forall j :: 0 <= j < |nodes| ==> nodes[j] in was || fresh(nodes[j])
      {
        var parsed, entry, next := ReadLine(previous, current, file.lines[i], file.lines, i, was);
        if !parsed {
          if current != null {
            return false, false;
          }
          Drop();
          return true, false;
        }
        previous := entry;
        current := next;
      }
      Truncate(previous, current, |file.lines|);
      if !file.atEnd || !file.closes {
        Drop();
        return true, false;
      }
      assert Regions() == file.Regions();
      defined, ok := true, true;
    }

    /** `meminspect_lookup_update`, with the maps file as each of its refreshes finds it. The
        second refresh comes too late for the answer. */
    method LookupUpdate(address: Word, file0: MapsFile, file1: MapsFile)
      returns (defined: bool, found: ChainNode?<Region>)
      requires Valid()
      modifies this, nodes`next, nodes`item
      ensures defined <==> Looked(old(Regions()), address, file0, file1).Some?
      ensures defined ==> Valid() && (found != null ==> found in nodes)
      ensures defined ==> Looked(old(Regions()), address, file0, file1)
                          == Some((Regions(), if found == null then None else Some(found.item)))
      ensures forall j :: 0 <= j < |nodes| ==> nodes[j] in old(nodes) || fresh(nodes[j])
    {
      hide Chain, ItemsOf, First, Refreshed, DoubleFrees;
      ghost var regions := Regions();
      ghost var k;
      found := null;
      for retry := 0 to 2
        invariant Valid() && found == null
        invariant forall j :: 0 <= j < |nodes| ==> nodes[j] in old(nodes) || fresh(nodes[j])
        invariant retry == 0 ==> Regions() == regions
        invariant retry == 1 ==> Refresh(regions, file0) == Some(Regions()) && First(regions, address).None?
        invariant retry == 2 ==> Looked(regions, address, file0, file1) == Some((Regions(), None))
      {
        found, k := LookupRegion(address);
        if found != null {
          break;
        }
        var ok;
        defined, ok := Update(if retry == 0 then file0 else file1);
        if !defined {
          return;
        }
      }
      defined := true;
    }
  }

  const BLANK := Region(0, 0, false, false, false, false, 0, 0, 0, 0, "")
}
