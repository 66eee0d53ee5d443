/** Address translation through mapped files, on plain values: which file position a returned
    pointer stands for, and when it is the one the region list gives. */
module ViewsModel {
  import opened Options
  import opened Regions

  /** `struct memview_context` */
  datatype View = View(filename: string, mappingStart: Word, lookupStart: Word, length: Word)

  /** What opening and mapping the file of a region gives: it cannot be opened, or `mmap` returns
      this word. */
  datatype Mapped = Unopened | Opened(word: Word)

  type Mapper = Region -> Mapped

  predicate IsMapped(m: Mapped) {
    m.Opened? && m.word != 0 && m.word != WORD - 1
  }

  /** `mmap` has failed on an open file. The code then closes the file by passing the descriptor to
      `fclose`, which has no defined behaviour. */
  predicate MapFails(m: Mapped) {
    m.Opened? && (m.word == 0 || m.word == WORD - 1)
  }

  /** The kernel does not map a file across the end of the address space. */
  ghost predicate Kernel(mmap: Mapper) {
    forall r: Region :: IsMapped(mmap(r)) ==> mmap(r).word + r.length <= WORD
  }

  function ViewOf(r: Region, start: Word): View {
    View(r.path, start, r.address, r.length)
  }

  /** `memmock_memview_cache_hit`, whose end address wraps. */
  predicate Hit(v: View, address: Word) {
    var end := (v.lookupStart + v.length) % WORD;
    v.lookupStart <= address && end > address
  }

  /** `memview_lookup`: pointer differences and sums wrap, and 0 is NULL. */
  function Translate(v: View, address: Word): Word {
    var localOffset := (v.mappingStart - v.lookupStart) % WORD;
    var offsetInRegion := (address - v.lookupStart) % WORD;
    if offsetInRegion > v.length then 0 else (address + localOffset) % WORD
  }

  /** On a hit no word has wrapped in the end: the answer is the start of the mapping plus the
      offset, inside the mapping and never NULL. */
  lemma HitTranslates(v: View, address: Word)
    requires Hit(v, address) && 0 < v.mappingStart && v.mappingStart + v.length <= WORD
    ensures Translate(v, address) == v.mappingStart + (address - v.lookupStart)
    ensures v.mappingStart <= Translate(v, address) < v.mappingStart + v.length
  {
    Wrap(v.lookupStart + v.length);
    Wrap(address - v.lookupStart);
    Wrap(v.mappingStart - v.lookupStart);
    Wrap(address + (v.mappingStart - v.lookupStart) % WORD);
  }

  lemma Wrap(x: int)
    requires -WORD <= x < 2 * WORD
    ensures x % WORD == if x < 0 then x + WORD else if x < WORD then x else x - WORD
  {
  }

  /** Which addresses the bound test lets through, whatever wraps: the answer lies in the mapping
      exactly for an offset below the length, and the only other answer that is not NULL is the end
      of the mapping, for an offset of exactly the length. */
  lemma LookupExact(v: View, address: Word)
    requires 0 < v.mappingStart && v.mappingStart + v.length <= WORD
    ensures var t, offset := Translate(v, address), (address - v.lookupStart) % WORD;
            && (v.mappingStart <= t < v.mappingStart + v.length <==> offset < v.length)
            && (t != 0 && !(v.mappingStart <= t < v.mappingStart + v.length)
                <==> offset == v.length && v.mappingStart + v.length < WORD)
            && (offset <= v.length ==> t == (v.mappingStart + offset) % WORD)
  {
    Wrap(address - v.lookupStart);
    Wrap(v.mappingStart - v.lookupStart);
    Wrap(address + (v.mappingStart - v.lookupStart) % WORD);
    var offset := (address - v.lookupStart) % WORD;
    if offset <= v.length {
      Wrap(v.mappingStart + offset);
    }
  }

  /** The bound test lets one address too many through: without a hit the end of the mapping
      would be returned. */
  lemma OnePastTheEnd(v: View)
    requires v.lookupStart + v.length < WORD && 0 < v.mappingStart && v.mappingStart + v.length < WORD
    ensures !Hit(v, v.lookupStart + v.length)
    ensures Translate(v, v.lookupStart + v.length) == v.mappingStart + v.length
  {
    Wrap(v.mappingStart - v.lookupStart);
    Wrap(v.lookupStart + v.length + (v.mappingStart - v.lookupStart) % WORD);
  }

  /** The first view in list order that is hit. */
  function FirstView(views: seq<View>, address: Word): (k: Option<nat>)
    ensures k.Some? ==> k.value < |views| && Hit(views[k.value], address)
  {
    if views == [] then None
    else if Hit(views[0], address) then Some(0)
    else match FirstView(views[1..], address)
      case None => None
      case Some(k) => Some(k + 1)
  }

  lemma {:induction false} FirstViewIs(views: seq<View>, address: Word, k: nat)
    requires k <= |views| && forall i :: 0 <= i < k ==> !Hit(views[i], address)
    requires k < |views| ==> Hit(views[k], address)
    ensures FirstView(views, address) == if k < |views| then Some(k) else None
  {
    if k > 0 {
      FirstViewIs(views[1..], address, k - 1);
    }
  }

  lemma {:induction false} FirstViewNone(views: seq<View>, address: Word)
    requires FirstView(views, address).None?
    ensures forall i :: 0 <= i < |views| ==> !Hit(views[i], address)
  {
    if views != [] {
      FirstViewNone(views[1..], address);
      assert views == [views[0]] + views[1..];
    }
  }

  /** The region list and the views, with the region each view was made from. */
  datatype Mock = Mock(regions: seq<Region>, views: seq<View>, sources: seq<Region>)

  const INITIAL := Mock([], [], [])

  /** A view of the region is added at the end, if its file can be mapped. */
  function Populated(m: Mock, r: Region, mmap: Mapper): Mock {
    if IsMapped(mmap(r)) then m.(views := m.views + [ViewOf(r, mmap(r).word)], sources := m.sources + [r]) else m
  }

  function Populate(m: Mock, r: Region, address: Word, mmap: Mapper): Option<(Mock, Word)> {
    if MapFails(mmap(r)) then None
    else Some((Populated(m, r, mmap), if IsMapped(mmap(r)) then Translate(ViewOf(r, mmap(r).word), address) else 0))
  }

  /** `memmock_get`: a view, or else a region to map, or else a fresh list of regions; every
      refresh throws all views away, and the second one comes too late. Nothing, if the behaviour
      is not defined. */
  function Get(m: Mock, address: Word, file0: MapsFile, file1: MapsFile, mmap: Mapper): Option<(Mock, Word)> {
    match FirstView(m.views, address)
    case Some(k) => Some((m, Translate(m.views[k], address)))
    case None =>
      match First(m.regions, address)
      case Some(r) => Populate(m, r, address, mmap)
      case None =>
        match Refresh(m.regions, file0)
        case None => None
        case Some(again) =>
          match First(again, address)
          case Some(r) => Populate(Mock(again, [], []), r, address, mmap)
          case None =>
            match Refresh(again, file1)
            case None => None
            case Some(last) => Some((Mock(last, [], []), 0))
  }

  ghost predicate NoHit(views: seq<View>, address: Word) {
    forall i :: 0 <= i < |views| ==> !Hit(views[i], address)
  }

  /** The first view that is hit answers with the offset behind its mapping, and nothing changes. */
  lemma GetHit(m: Mock, address: Word, file0: MapsFile, file1: MapsFile, mmap: Mapper, k: nat)
    requires k < |m.views| && NoHit(m.views[..k], address) && Hit(m.views[k], address)
    requires var v := m.views[k]; 0 < v.mappingStart && v.mappingStart + v.length <= WORD
    ensures Get(m, address, file0, file1, mmap)
            == Some((m, m.views[k].mappingStart + (address - m.views[k].lookupStart)))
  {
    hide Translate, Hit;
    assert forall i :: 0 <= i < k ==> m.views[..k][i] == m.views[i];
    FirstViewIs(m.views, address, k);
    HitTranslates(m.views[k], address);
  }

  /** Without a view the first listed region that contains the address is mapped, and if there is
      none the first of those that the file lists then; the views of the old list are gone. */
  lemma GetMaps(m: Mock, address: Word, file0: MapsFile, file1: MapsFile, mmap: Mapper, base: Mock, k: nat)
    requires NoHit(m.views, address) && FirstAt(base.regions, address, k) && k < |base.regions|
    requires || base == m
             || (FirstAt(m.regions, address, |m.regions|) && file0.Succeeds() && base == Mock(file0.Regions(), [], []))
    ensures var got, r := Get(m, address, file0, file1, mmap), base.regions[k];
            match mmap(r)
            case Unopened => got == Some((base, 0))
            case Opened(w) =>
              && (w == 0 || w == 0xFFFF_FFFF_FFFF_FFFF <==> got.None?)
              && (got.Some? && w + r.length <= WORD ==>
                    && got.value.1 == w + (address - r.address)
                    && got.value.0 == Mock(base.regions, base.views + [View(r.path, w, r.address, r.length)],
                                           base.sources + [r]))
  {
    hide Translate, Hit, Matches, First;
    FirstViewIs(m.views, address, |m.views|);
    if base != m {
      FirstIs(m.regions, address, |m.regions|);
    }
    FirstIs(base.regions, address, k);
    var r := base.regions[k];
    if IsMapped(mmap(r)) && mmap(r).word + r.length <= WORD {
      RegionHit(r, ViewOf(r, mmap(r).word), address);
      HitTranslates(ViewOf(r, mmap(r).word), address);
    }
  }

  /** If the file lists no such region either, there is no answer and no view is left. */
  lemma GetNowhere(m: Mock, address: Word, file0: MapsFile, file1: MapsFile, mmap: Mapper)
    requires NoHit(m.views, address) && FirstAt(m.regions, address, |m.regions|)
    ensures var got, again := Get(m, address, file0, file1, mmap), Refresh(m.regions, file0);
            && (again.None? ==> got.None?)
            && (again.Some? && FirstAt(again.value, address, |again.value|) ==>
                  match Refresh(again.value, file1)
                  case None => got.None?
                  case Some(last) => got == Some((Mock(last, [], []), 0)))
  {
    hide Hit, Matches, First, Refresh;
    FirstViewIs(m.views, address, |m.views|);
    FirstIs(m.regions, address, |m.regions|);
    if Refresh(m.regions, file0).Some? {
      var again := Refresh(m.regions, file0).value;
      if FirstAt(again, address, |again|) {
        FirstIs(again, address, |again|);
      }
    }
  }

  /** `memmock_get_label` refreshes the regions and keeps the views. */
  function Label(m: Mock, address: Word, file0: MapsFile, file1: MapsFile): Option<(Mock, Option<string>)> {
    match Looked(m.regions, address, file0, file1)
    case None => None
    case Some(found) =>
      Some((m.(regions := found.0), if found.1.None? then None else Some(found.1.value.path)))
  }

  /** The file and the position in it that a region gives an address. */
  function Position(r: Region, address: int): (string, int) {
    (r.path, r.offset + (address - r.address))
  }

  /** The file and the position in it that a pointer into a view stands for. */
  function Behind(v: View, source: Region, pointer: int): (string, int) {
    (source.path, source.offset + (pointer - v.mappingStart))
  }

  /** The pointer lies in a mapping and stands for what the first matching region says about the address. */
  ghost predicate Right(m: Mock, address: Word, pointer: Word) {
    && |m.views| == |m.sources| && pointer != 0
    && var k := FirstView(m.views, address);
    && k.Some? && First(m.regions, address).Some?
    && m.views[k.value].mappingStart <= pointer < m.views[k.value].mappingStart + m.views[k.value].length
    && Behind(m.views[k.value], m.sources[k.value], pointer) == Position(First(m.regions, address).value, address)
  }

  /** No region that is the first match of some address gives another address a position that
      an earlier region takes from it. */
  ghost predicate NoShadow(regions: seq<Region>) {
    forall a: Word, b: Word :: !Shadows(regions, a, b)
  }

  ghost predicate Shadows(regions: seq<Region>, a: Word, b: Word) {
    && First(regions, a).Some? && Matches(First(regions, a).value, b) && First(regions, b).Some?
    && Position(First(regions, a).value, b) != Position(First(regions, b).value, b)
  }

  /** In particular when no address lies in two regions. */
  lemma {:induction false} DisjointNoShadow(regions: seq<Region>)
    requires forall i, j, a: Word :: 0 <= i < j < |regions| && Matches(regions[i], a) ==> !Matches(regions[j], a)
    ensures NoShadow(regions)
  {
    forall a: Word, b: Word
      ensures !Shadows(regions, a, b)
    {
      FirstFound(regions, a);
      FirstFound(regions, b);
      if First(regions, a).Some? && Matches(First(regions, a).value, b) && First(regions, b).Some? {
        var i :| 0 <= i < |regions| && regions[i] == First(regions, a).value;
        var j :| 0 <= j < |regions| && regions[j] == First(regions, b).value;
        assert Matches(regions[i], b) && Matches(regions[j], b);
      }
    }
  }

  ghost predicate Mapping(v: View, source: Region) {
    v == ViewOf(source, v.mappingStart) && 0 < v.mappingStart && v.mappingStart + v.length <= WORD
  }

  /** The regions that views were made from give the positions that `regions` gives. */
  ghost predicate StillThere(sources: seq<Region>, regions: seq<Region>) {
    forall i, b: Word :: 0 <= i < |sources| && Matches(sources[i], b) ==>
      First(regions, b).Some? && Position(First(regions, b).value, b) == Position(sources[i], b)
  }

  /** Every view maps a region, and what it maps is still where the current list says. */
  ghost predicate Consistent(m: Mock) {
    && |m.views| == |m.sources| && NoShadow(m.regions) && StillThere(m.sources, m.regions)
    && (forall i :: 0 <= i < |m.views| ==> Mapping(m.views[i], m.sources[i]))
  }

  /** A view gives the position of the first region. */
  lemma ViewAgrees(m: Mock, address: Word)
    requires Consistent(m) && FirstView(m.views, address).Some?
    ensures Right(m, address, Translate(m.views[FirstView(m.views, address).value], address))
  {
    hide NoShadow, Translate, Hit, First, Matches;
    var k := FirstView(m.views, address).value;
    assert Mapping(m.views[k], m.sources[k]);
    HitTranslates(m.views[k], address);
    RegionHit(m.sources[k], m.views[k], address);
  }

  lemma NoShadowAt(regions: seq<Region>, a: Word, b: Word)
    requires NoShadow(regions)
    ensures !Shadows(regions, a, b)
  {
  }

  /** A region that is the first match of an address is there. */
  lemma FirstThere(regions: seq<Region>, a: Word, b: Word)
    requires NoShadow(regions) && First(regions, a).Some? && Matches(First(regions, a).value, b)
    ensures First(regions, b).Some? && Position(First(regions, b).value, b) == Position(First(regions, a).value, b)
  {
    FirstFound(regions, a);
    FirstFound(regions, b);
    NoShadowAt(regions, a, b);
  }

  lemma PopulateRight(m: Mock, address: Word, mmap: Mapper)
    requires Consistent(m) && Kernel(mmap) && FirstView(m.views, address).None? && First(m.regions, address).Some?
    ensures var r, t := First(m.regions, address).value, Populated(m, First(m.regions, address).value, mmap);
            && Consistent(t)
            && (IsMapped(mmap(r)) ==> Translate(ViewOf(r, mmap(r).word), address) != 0
                                      && Right(t, address, Translate(ViewOf(r, mmap(r).word), address)))
  {
    hide NoShadow, Translate, Hit, First, FirstView, Matches;
    var r := First(m.regions, address).value;
    FirstFound(m.regions, address);
    if IsMapped(mmap(r)) {
      var v := ViewOf(r, mmap(r).word);
      var sources := m.sources + [r];
      forall i, b: Word | 0 <= i < |sources| && Matches(sources[i], b)
        ensures First(m.regions, b).Some? && Position(First(m.regions, b).value, b) == Position(sources[i], b)
      {
        if i == |m.sources| {
          FirstThere(m.regions, address, b);
        } else {
          assert sources[i] == m.sources[i];
        }
      }
      RegionHit(r, v, address);
      FirstViewNone(m.views, address);
      FirstViewIs(m.views + [v], address, |m.views|);
      HitTranslates(v, address);
    }
  }

  /** A region and the view of it take the same addresses. */
  lemma RegionHit(r: Region, v: View, address: Word)
    requires v.lookupStart == r.address && v.length == r.length
    ensures Matches(r, address) == Hit(v, address)
  {
  }

  /** The file, if it can be read at all, lists regions without shadows. */
  ghost predicate Clean(file: MapsFile) {
    file.Succeeds() ==> NoShadow(file.Regions())
  }

  lemma RefreshConsistent(regions: seq<Region>, file: MapsFile)
    requires NoShadow(regions) && Clean(file)
    ensures Consistent(Mock(Refreshed(regions, file), [], []))
  {
    assert NoShadow([]) by {
      forall a: Word, b: Word
        ensures !Shadows([], a, b)
      {
      }
    }
  }

  /** The region that answers, if one is found in time. */
  function Answering(m: Mock, address: Word, file0: MapsFile): Option<Region> {
    if First(m.regions, address).Some? then First(m.regions, address)
    else First(Refreshed(m.regions, file0), address)
  }

  /** A refresh that a lookup comes to has undefined behaviour. */
  predicate BadRefresh(m: Mock, address: Word, file0: MapsFile, file1: MapsFile) {
    && First(m.regions, address).None?
    && (DoubleFrees(|m.regions|, file0)
        || (First(Refreshed(m.regions, file0), address).None? && DoubleFrees(|Refreshed(m.regions, file0)|, file1)))
  }

  /** Whatever the maps file says at each refresh, an answer is right, and there is no answer
      only if no region was found in time or its file could not be opened. The behaviour is
      undefined exactly if the lookup misses and then comes to a bad refresh, or to a file that
      opens but cannot be mapped. */
  lemma GetRight(m: Mock, address: Word, file0: MapsFile, file1: MapsFile, mmap: Mapper)
    requires Consistent(m) && Kernel(mmap) && Clean(file0) && Clean(file1)
    ensures var got, r, hit :=
            Get(m, address, file0, file1, mmap), Answering(m, address, file0), FirstView(m.views, address).Some?;
            && (got.None? <==> !hit && (BadRefresh(m, address, file0, file1) || (r.Some? && MapFails(mmap(r.value)))))
            && (got.Some? ==>
                  && Consistent(got.value.0)
                  && (got.value.1 != 0 ==> Right(got.value.0, address, got.value.1))
                  && (got.value.1 == 0 <==> !hit && (r.None? || mmap(r.value).Unopened?)))
  {
    hide NoShadow, Translate, Hit, First, FirstView, StillThere, DoubleFrees;
    if FirstView(m.views, address).Some? {
      ViewAgrees(m, address);
    } else if First(m.regions, address).Some? {
      PopulateRight(m, address, mmap);
    } else if !DoubleFrees(|m.regions|, file0) {
      var again := Mock(Refreshed(m.regions, file0), [], []);
      RefreshConsistent(m.regions, file0);
      if First(again.regions, address).Some? {
        NoViews(address);
        PopulateRight(again, address, mmap);
      } else {
        RefreshConsistent(again.regions, file1);
      }
    }
  }

  lemma NoViews(address: Word)
    ensures FirstView([], address).None?
  {
  }

  datatype Call =
    | GetCall(address: Word, file0: MapsFile, file1: MapsFile, mmap: Mapper)
    | LabelCall(address: Word, file0: MapsFile, file1: MapsFile)

  /** The state after a call, if the call is defined. */
  function After(m: Mock, c: Call): Option<Mock> {
    match c
    case GetCall(address, file0, file1, mmap) =>
      var got := Get(m, address, file0, file1, mmap);
      if got.None? then None else Some(got.value.0)
    case LabelCall(address, file0, file1) =>
      var got := Label(m, address, file0, file1);
      if got.None? then None else Some(got.value.0)
  }

  /** The label is the path of the first region on the list the call leaves that contains the address;
      there is none only if neither the list before it nor the file had such a region. */
  ghost predicate LabelRight(m: Mock, address: Word, file0: MapsFile, t: Mock, path: Option<string>) {
    && t.views == m.views && t.sources == m.sources
    && match path
       case Some(p) => exists k :: 0 <= k < |t.regions| && FirstAt(t.regions, address, k) && t.regions[k].path == p
       case None =>
         && FirstAt(m.regions, address, |m.regions|)
         && (file0.Succeeds() ==> FirstAt(file0.Regions(), address, |file0.Regions()|))
  }

  lemma FirstHere(regions: seq<Region>, address: Word) returns (k: nat)
    ensures FirstAt(regions, address, k)
    ensures First(regions, address) == if k < |regions| then Some(regions[k]) else None
  {
    k := 0;
    while k < |regions| && !Matches(regions[k], address)
      invariant k <= |regions| && forall i :: 0 <= i < k ==> !Matches(regions[i], address)
    {
      k := k + 1;
    }
    FirstIs(regions, address, k);
  }

  /** Every label is right, whatever state the views are in. */
  lemma LabelsRight(m: Mock, address: Word, file0: MapsFile, file1: MapsFile)
    ensures var got := Label(m, address, file0, file1);
            got.Some? ==> LabelRight(m, address, file0, got.value.0, got.value.1)
  {
    hide First, Matches, Refresh;
    var k := FirstHere(m.regions, address);
    if k == |m.regions| && Refresh(m.regions, file0).Some? {
      var again := Refresh(m.regions, file0).value;
      var j := FirstHere(again, address);
      if file0.Succeeds() {
        SucceedsIs(m.regions, file0);
      }
    }
  }

  lemma SucceedsIs(regions: seq<Region>, file: MapsFile)
    requires file.Succeeds() && Refresh(regions, file).Some?
    ensures Refresh(regions, file).value == file.Regions()
  {
  }

  ghost predicate AnswerRight(m: Mock, c: Call) {
    match c
    case GetCall(address, file0, file1, mmap) =>
      var got := Get(m, address, file0, file1, mmap);
      got.Some? && got.value.1 != 0 ==> Right(got.value.0, address, got.value.1)
    case LabelCall(address, file0, file1) =>
      var got := Label(m, address, file0, file1);
      got.Some? ==> LabelRight(m, address, file0, got.value.0, got.value.1)
  }

  /** Every pointer and label answered in a run is right at the time, as long as the run is defined. */
  ghost predicate AllRight(m: Mock, calls: seq<Call>)
    decreases |calls|
  {
    calls == []
    || (AnswerRight(m, calls[0]) && (After(m, calls[0]).Some? ==> AllRight(After(m, calls[0]).value, calls[1..])))
  }

  /** A call for a pointer, with any maps files that list regions without shadows. */
  ghost predicate CleanGet(c: Call) {
    c.GetCall? && Kernel(c.mmap) && Clean(c.file0) && Clean(c.file1)
  }

  /** Over every run of `memmock_get`, however the maps file changes or fails to be read between
      the calls, every answer is right. */
  lemma {:induction false} GetsRight(m: Mock, calls: seq<Call>)
    requires Consistent(m) && forall i :: 0 <= i < |calls| ==> CleanGet(calls[i])
    ensures AllRight(m, calls)
    decreases |calls|
  {
    if calls != [] {
      var c := calls[0];
      assert CleanGet(calls[0]);
      GetRight(m, c.address, c.file0, c.file1, c.mmap);
      if After(m, c).Some? {
        GetsRight(After(m, c).value, calls[1..]);
      }
    }
  }

  lemma InitialConsistent()
    ensures Consistent(INITIAL)
  {
  }

  /** What a call may find when the regions of the process are `regions` throughout: a refresh
      for a pointer may fail in any way, one for a label only before the file is opened. */
  ghost predicate Steady(c: Call, regions: seq<Region>) {
    match c
    case GetCall(_, file0, file1, mmap) => Kernel(mmap) && Finds(file0, regions) && Finds(file1, regions)
    case LabelCall(_, file0, file1) =>
      && Finds(file0, regions) && Finds(file1, regions)
      && (file0.Readable() ==> file0.Succeeds()) && (file1.Readable() ==> file1.Succeeds())
  }

  ghost predicate Finds(file: MapsFile, regions: seq<Region>) {
    file.Succeeds() ==> file.Regions() == regions
  }

  /** Over every run of pointer and label calls on an unchanging process every answer is right. */
  lemma {:induction false} SteadyRight(m: Mock, calls: seq<Call>, regions: seq<Region>)
    requires Consistent(m) && NoShadow(regions) && (m.regions == regions || (m.regions == [] && m.views == []))
    requires forall i :: 0 <= i < |calls| ==> Steady(calls[i], regions)
    ensures AllRight(m, calls)
    decreases |calls|
  {
    if calls != [] {
      var c := calls[0];
      assert Steady(calls[0], regions);
      if c.GetCall? {
        GetRight(m, c.address, c.file0, c.file1, c.mmap);
      } else {
        LabelsRight(m, c.address, c.file0, c.file1);
      }
      SteadyStep(m, c, regions);
      if After(m, c).Some? {
        SteadyRight(After(m, c).value, calls[1..], regions);
      }
    }
  }

  lemma SteadyStep(m: Mock, c: Call, regions: seq<Region>)
    requires Consistent(m) && NoShadow(regions) && (m.regions == regions || (m.regions == [] && m.views == []))
    requires Steady(c, regions)
    ensures var t := After(m, c);
            t.Some? ==>
              Consistent(t.value) && (t.value.regions == regions || (t.value.regions == [] && t.value.views == []))
  {
    hide NoShadow, Translate, Hit, First, FirstView, StillThere, DoubleFrees;
    match c {
      case GetCall(address, file0, file1, mmap) =>
        GetRight(m, address, file0, file1, mmap);
        NoMatch(address);
      case LabelCall(address, file0, file1) =>
        InitialConsistent();
        NoMatch(address);
        NoViewsThere(regions);
    }
  }

  lemma NoViewsThere(regions: seq<Region>)
    ensures StillThere([], regions)
  {
  }

  lemma NoMatch(address: Word)
    ensures First([], address).None?
  {
  }

  /** Calls for pointers on a process whose maps file lists `regions`. */
  ghost predicate GetsOn(calls: seq<Call>, regions: seq<Region>) {
    forall i :: 0 <= i < |calls| ==>
      calls[i].GetCall? && Kernel(calls[i].mmap) && Finds(calls[i].file0, regions) && Finds(calls[i].file1, regions)
  }

  /** Overlapping regions are what can go wrong: all runs on a list of regions answer right
      exactly when the list has no shadows. */
  lemma {:induction false} NoShadowExact(regions: seq<Region>)
    ensures NoShadow(regions) <==> forall calls :: GetsOn(calls, regions) ==> AllRight(INITIAL, calls)
  {
    if NoShadow(regions) {
      InitialConsistent();
      forall calls | GetsOn(calls, regions)
        ensures AllRight(INITIAL, calls)
      {
        assert forall i :: 0 <= i < |calls| ==> CleanGet(calls[i]);
        GetsRight(INITIAL, calls);
      }
    } else {
      var a: Word, b: Word :| Shadows(regions, a, b);
      ShadowRun(regions, a, b);
    }
  }

  function Reads(regions: seq<Region>): (file: MapsFile)
    ensures file.Succeeds() && file.Regions() == regions
  {
    MapsFile(true, true, seq(|regions|, i requires 0 <= i < |regions| => Some(regions[i])), true, true)
  }

  function MapsLow(r: Region): Mapped { Opened(1) }

  function GetOn(regions: seq<Region>, address: Word): Call {
    GetCall(address, Reads(regions), Reads(regions), MapsLow)
  }

  /** Asking for an address of a later region first caches a view that then answers for an
      address that an earlier region has, too. */
  lemma ShadowRun(regions: seq<Region>, a: Word, b: Word)
    requires Shadows(regions, a, b)
    ensures var calls := [GetOn(regions, a), GetOn(regions, b)];
            GetsOn(calls, regions) && !AllRight(INITIAL, calls)
  {
    var calls := [GetOn(regions, a), GetOn(regions, b)];
    var r := First(regions, a).value;
    FirstFound(regions, a);
    var v := ViewOf(r, 1);
    var m := Mock(regions, [v], [r]);
    assert After(INITIAL, calls[0]) == Some(m) by {
      assert [] + [v] == [v] && [] + [r] == [r];
    }
    RegionHit(r, v, b);
    FirstViewIs([v], b, 0);
    HitTranslates(v, b);
    assert !AnswerRight(m, calls[1]);
    assert calls[1..][0] == calls[1];
    assert !AllRight(m, calls[1..]);
  }

  function Plain(address: Word, length: Word, path: string): Region {
    Region(address, length, true, false, false, true, 0, 0, 0, 0, path)
  }

  lemma OverlapShadows()
    ensures !NoShadow([Plain(4096, 8192, "/a"), Plain(8192, 8192, "/b")])
  {
    var regions := [Plain(4096, 8192, "/a"), Plain(8192, 8192, "/b")];
    FirstIs(regions, 13000, 1);
    FirstIs(regions, 9000, 0);
    assert Shadows(regions, 13000, 9000);
  }

  /** Every view answers as the region list does. */
  ghost predicate Agrees(m: Mock) {
    forall b: Word :: FirstView(m.views, b).Some? ==> Right(m, b, Translate(m.views[FirstView(m.views, b).value], b))
  }

  /** A label call keeps the views, and they go on agreeing with the refreshed regions exactly
      when what they map has stayed where it was. */
  lemma {:induction false} LabelExact(m: Mock, address: Word, file0: MapsFile, file1: MapsFile)
    requires Consistent(m) && Label(m, address, file0, file1).Some?
    ensures var t := Label(m, address, file0, file1).value.0;
            Agrees(t) <==> StillThere(m.sources, t.regions)
  {
    hide NoShadow, Translate, Hit, First, FirstView, Matches;
    var t := Label(m, address, file0, file1).value.0;
    if Agrees(t) {
      forall i, b: Word | 0 <= i < |m.sources| && Matches(m.sources[i], b)
        ensures First(t.regions, b).Some? && Position(First(t.regions, b).value, b) == Position(m.sources[i], b)
      {
        SameSource(m, i, b);
      }
    }
    if StillThere(m.sources, t.regions) {
      forall b: Word | FirstView(m.views, b).Some?
        ensures Right(t, b, Translate(m.views[FirstView(m.views, b).value], b))
      {
        var k := FirstView(m.views, b).value;
        assert Mapping(m.views[k], m.sources[k]);
        RegionHit(m.sources[k], m.views[k], b);
        HitTranslates(m.views[k], b);
      }
    }
  }

  /** All views that take an address give it one position. */
  lemma SameSource(m: Mock, i: nat, b: Word)
    requires Consistent(m) && i < |m.sources| && Matches(m.sources[i], b)
    ensures var k := FirstView(m.views, b);
            && k.Some? && Position(m.sources[k.value], b) == Position(m.sources[i], b)
            && Behind(m.views[k.value], m.sources[k.value], Translate(m.views[k.value], b)) == Position(m.sources[i], b)
  {
    hide NoShadow, Translate, Hit, First, FirstView, Matches;
    assert Mapping(m.views[i], m.sources[i]);
    RegionHit(m.sources[i], m.views[i], b);
    if FirstView(m.views, b).None? {
      FirstViewNone(m.views, b);
    }
    var k := FirstView(m.views, b).value;
    assert Mapping(m.views[k], m.sources[k]);
    RegionHit(m.sources[k], m.views[k], b);
    HitTranslates(m.views[k], b);
    assert Matches(m.sources[k], b) && Matches(m.sources[i], b);
    assert Position(First(m.regions, b).value, b) == Position(m.sources[k], b);
    assert Position(First(m.regions, b).value, b) == Position(m.sources[i], b);
  }

  // ----- Runs that mix pointer and label calls on a changing process -----

  ghost predicate CleanCall(c: Call) {
    Clean(c.file0) && Clean(c.file1) && (c.GetCall? ==> Kernel(c.mmap))
  }

  /** What the views map is still there after every label call. */
  ghost predicate LabelsKeep(m: Mock, calls: seq<Call>)
    decreases |calls|
  {
    calls == [] || After(m, calls[0]).None?
    || var t := After(m, calls[0]).value;
       (calls[0].LabelCall? ==> StillThere(m.sources, t.regions)) && LabelsKeep(t, calls[1..])
  }

  lemma LabelConsistent(m: Mock, c: Call)
    requires Consistent(m) && c.LabelCall? && CleanCall(c) && After(m, c).Some?
    ensures var t := After(m, c).value;
            t.views == m.views && t.sources == m.sources && (StillThere(m.sources, t.regions) ==> Consistent(t))
  {
    hide First, StillThere, DoubleFrees, NoShadow;
    RefreshConsistent(m.regions, c.file0);
    RefreshConsistent(Refreshed(m.regions, c.file0), c.file1);
  }

  /** One call of such a run. */
  lemma CallRight(m: Mock, c: Call)
    requires Consistent(m) && CleanCall(c)
    requires c.LabelCall? && After(m, c).Some? ==> StillThere(m.sources, After(m, c).value.regions)
    ensures AnswerRight(m, c) && (After(m, c).Some? ==> Consistent(After(m, c).value))
  {
    hide Get, Label, Right, Consistent, StillThere;
    match c {
      case GetCall(address, file0, file1, mmap) => GetRight(m, address, file0, file1, mmap);
      case LabelCall(address, file0, file1) =>
        LabelsRight(m, address, file0, file1);
        if After(m, c).Some? {
          LabelConsistent(m, c);
        }
    }
  }

  lemma {:induction false} MixedRight(m: Mock, calls: seq<Call>)
    requires Consistent(m) && (forall i :: 0 <= i < |calls| ==> CleanCall(calls[i])) && LabelsKeep(m, calls)
    ensures AllRight(m, calls)
    decreases |calls|
  {
    hide Get, Label, AnswerRight, Consistent, StillThere, After;
    if calls != [] {
      CallRight(m, calls[0]);
      if After(m, calls[0]).Some? {
        MixedRight(After(m, calls[0]).value, calls[1..]);
      }
    }
  }

  /** A label call that loses what a view maps: the next pointer call can be answered wrong. */
  lemma LabelBreaks(m: Mock, c: Call) returns (next: Call)
    requires Consistent(m) && c.LabelCall? && After(m, c).Some? && !StillThere(m.sources, After(m, c).value.regions)
    ensures CleanGet(next) && !AnswerRight(After(m, c).value, next)
  {
    hide Right, Consistent, Translate, Hit, First, StillThere, NoShadow;
    var t := After(m, c).value;
    LabelExact(m, c.address, c.file0, c.file1);
    var b: Word :| FirstView(t.views, b).Some? && !Right(t, b, Translate(t.views[FirstView(t.views, b).value], b));
    next := GetOn([], b);
    NoRegions();
    ViewNotNull(m, b);
  }

  lemma NoRegions()
    ensures NoShadow([]) && forall address: Word :: CleanGet(GetOn([], address))
  {
  }

  lemma ViewNotNull(m: Mock, b: Word)
    requires Consistent(m) && FirstView(m.views, b).Some?
    ensures Translate(m.views[FirstView(m.views, b).value], b) != 0
  {
    hide Translate, Hit, First, StillThere, NoShadow;
    var k := FirstView(m.views, b).value;
    assert Mapping(m.views[k], m.sources[k]);
    HitTranslates(m.views[k], b);
  }

  /** Where a run first loses what a view maps, and the call that shows it. */
  lemma {:induction false} FirstBreak(m: Mock, calls: seq<Call>) returns (k: nat, next: Call)
    requires Consistent(m) && (forall i :: 0 <= i < |calls| ==> CleanCall(calls[i])) && !LabelsKeep(m, calls)
    ensures k <= |calls| && CleanGet(next) && !AllRight(m, calls[..k] + [next])
    decreases |calls|
  {
    hide Get, Label, AnswerRight, Consistent, StillThere, After, CleanGet, Clean, Kernel;
    var c := calls[0];
    var t := After(m, c).value;
    if c.LabelCall? && !StillThere(m.sources, t.regions) {
      k := 1;
      next := LabelBreaks(m, c);
      RunOne(t, next);
      RunSplit(m, c, [next]);
      assert calls[..1] + [next] == [c] + [next];
    } else {
      CallRight(m, c);
      k, next := FirstBreak(t, calls[1..]);
      RunSplit(m, c, calls[1..][..k] + [next]);
      assert calls[..k + 1] + [next] == [c] + (calls[1..][..k] + [next]);
      k := k + 1;
    }
  }

  lemma RunOne(m: Mock, c: Call)
    ensures AllRight(m, [c]) <==> AnswerRight(m, c)
  {
    hide AnswerRight, After;
    assert [c][1..] == [];
  }

  lemma RunSplit(m: Mock, c: Call, rest: seq<Call>)
    ensures AllRight(m, [c] + rest) <==> AnswerRight(m, c) && (After(m, c).Some? ==> AllRight(After(m, c).value, rest))
  {
    hide AnswerRight, After;
    assert ([c] + rest)[1..] == rest;
  }

  lemma {:induction false} KeepsPrefix(m: Mock, calls: seq<Call>, k: nat, next: Call)
    requires k <= |calls| && next.GetCall? && LabelsKeep(m, calls)
    ensures LabelsKeep(m, calls[..k] + [next])
    decreases |calls|
  {
    hide StillThere, After;
    var run := calls[..k] + [next];
    if k == 0 {
      assert run == [next] && [next][1..] == [];
    } else {
      assert run[0] == calls[0] && run[1..] == calls[1..][..k - 1] + [next];
      if After(m, calls[0]).Some? {
        KeepsPrefix(After(m, calls[0]).value, calls[1..], k - 1, next);
      }
    }
  }

  /** The program's own pattern, a label call for each sample and pointer calls between, on a process
      that changes its map as it likes: whatever pointer is asked for at whatever point of the run
      is answered right, exactly if every label call finds what the views map still there. */
  lemma {:induction false} MixedExactly(m: Mock, calls: seq<Call>)
    requires Consistent(m) && forall i :: 0 <= i < |calls| ==> CleanCall(calls[i])
    ensures LabelsKeep(m, calls) <==>
            forall k, next :: 0 <= k <= |calls| && CleanGet(next) ==> AllRight(m, calls[..k] + [next])
  {
    hide Consistent, LabelsKeep, AllRight, Kernel, Clean;
    if LabelsKeep(m, calls) {
      forall k, next | 0 <= k <= |calls| && CleanGet(next)
        ensures AllRight(m, calls[..k] + [next])
      {
        KeepsPrefix(m, calls, k, next);
        MixedRight(m, calls[..k] + [next]);
      }
    } else {
      var k, next := FirstBreak(m, calls);
    }
  }

  /** A file that opens but cannot be mapped: the pointer call is not defined. */
  lemma MapFailed()
    ensures Get(INITIAL, 5000, Reads([Plain(4096, 4096, "/a")]), Reads([]), r => Opened(WORD - 1)) == None
  {
    var regions := [Plain(4096, 4096, "/a")];
    FirstIs(regions, 5000, 0);
    assert FirstBad(Reads(regions).lines) == 1;
    assert Refresh([], Reads(regions)) == Some(regions);
  }

  const OLD_MAP := [Plain(4096, 4096, "/a")]
  const NEW_MAP := [Plain(4096, 4096, "/b")]
  const OLD_VIEW := ViewOf(OLD_MAP[0], 1)

  lemma StaleGet()
    ensures After(INITIAL, GetOn(OLD_MAP, 5000)) == Some(Mock(OLD_MAP, [OLD_VIEW], OLD_MAP))
  {
    FirstIs(OLD_MAP, 5000, 0);
    assert [] + [OLD_VIEW] == [OLD_VIEW] && [] + [OLD_MAP[0]] == OLD_MAP;
  }

  lemma StaleLabel()
    ensures After(Mock(OLD_MAP, [OLD_VIEW], OLD_MAP), LabelCall(0, Reads(NEW_MAP), Reads(NEW_MAP)))
            == Some(Mock(NEW_MAP, [OLD_VIEW], OLD_MAP))
  {
    FirstIs(OLD_MAP, 0, 1);
    FirstIs(NEW_MAP, 0, 1);
  }

  lemma StaleAnswer()
    ensures !AnswerRight(Mock(NEW_MAP, [OLD_VIEW], OLD_MAP), GetOn(NEW_MAP, 5000))
  {
    hide Refresh;
    FirstViewIs([OLD_VIEW], 5000, 0);
    FirstIs(NEW_MAP, 5000, 0);
    HitTranslates(OLD_VIEW, 5000);
  }

  /** The process maps another file where one was, and a label call for an address outside
      refreshes the list: the next answer is still into the old file. */
  lemma StaleView()
    ensures NoShadow(OLD_MAP) && NoShadow(NEW_MAP)
    ensures !AllRight(INITIAL,
              [GetOn(OLD_MAP, 5000), LabelCall(0, Reads(NEW_MAP), Reads(NEW_MAP)), GetOn(NEW_MAP, 5000)])
  {
    DisjointNoShadow(OLD_MAP);
    DisjointNoShadow(NEW_MAP);
    hide *;
    var a, b, c := GetOn(OLD_MAP, 5000), LabelCall(0, Reads(NEW_MAP), Reads(NEW_MAP)), GetOn(NEW_MAP, 5000);
    StaleGet();
    StaleLabel();
    StaleAnswer();
    RunSplit(INITIAL, a, [b, c]);
    RunSplit(Mock(OLD_MAP, [OLD_VIEW], OLD_MAP), b, [c]);
    RunOne(Mock(NEW_MAP, [OLD_VIEW], OLD_MAP), c);
    assert [a] + [b, c] == [a, b, c] && [b] + [c] == [b, c];
  }
}
