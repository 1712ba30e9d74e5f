/** The per-domain resource ledger (`DomainResource` and the global
    `DOMAIN_RESOURCE`): page ranges and at most one boxed `DomainDataMap`
    pointer per domain id, released together when the domain is torn down. */
module ResourceLedger {
  import opened Kernel

  /** One `(page_start, n)` record: `n` frames starting at page number `page_start`. */
  datatype PageRange = PageRange(start: nat, count: nat)

  datatype Ledger = Ledger(pageMap: map<DomainId, seq<PageRange>>, boxData: map<DomainId, nat>)

  /** `DomainResource::new()`. */
  const EMPTY: Ledger := Ledger(map[], map[])

  /** Effects of `free_domain_resource`, in the order the kernel performs them. */
  datatype Release =
    | FreeSharedData(id: DomainId)      // `free_domain_shared_data(domain_id, ..)`
    | FreeFrames(addr: nat, count: nat) // `mem::free_frames(addr, n)`
    | DropDataMap(ptr: nat)             // `drop(Box::from_raw(ptr as *mut DomainDataMap))`

  datatype ReleaseOutcome = ReleaseOutcome(ledger: Ledger, effects: seq<Release>)

  /** The page ranges recorded for `id`, empty when it has none. */
  function Recorded(l: Ledger, id: DomainId): seq<PageRange>
  {
    if id in l.pageMap then l.pageMap[id] else []
  }

  /** `insert_page_map`: push `page` onto the id's list, creating it when absent. */
  function InsertPageMap(l: Ledger, id: DomainId, page: PageRange): (r: Ledger)
    ensures id in r.pageMap && r.pageMap[id] == Recorded(l, id) + [page]
    ensures r.pageMap - {id} == l.pageMap - {id}
    ensures r.boxData == l.boxData
  {
    l.(pageMap := l.pageMap[id := Recorded(l, id) + [page]])
  }

  /** `Vec::retain(|(s, _)| *s != page)`: keeps, in order, the ranges not starting at `page`. */
  function DropStart(xs: seq<PageRange>, page: nat): (r: seq<PageRange>)
    ensures forall x :: x in r <==> x in xs && x.start != page
    ensures |r| <= |xs|
  {
    if xs == [] then []
    else if xs[0].start == page then DropStart(xs[1..], page)
    else [xs[0]] + DropStart(xs[1..], page)
  }

  /** `free_page_map`: the `unwrap` panics when the id has no list. */
  function FreePageMap(l: Ledger, id: DomainId, page: nat): (r: Result<Ledger>)
    ensures r.Abort? <==> id !in l.pageMap
    ensures r.Ok? ==> id in r.value.pageMap
                      && r.value.pageMap[id] == DropStart(l.pageMap[id], page)
                      && r.value.pageMap - {id} == l.pageMap - {id}
                      && r.value.boxData == l.boxData
    ensures r.Ok? ==> forall x :: x in r.value.pageMap[id] ==> x.start != page
  {
    if id !in l.pageMap then Abort(UnwrapNone("page_map entry"))
    else Ok(l.(pageMap := l.pageMap[id := DropStart(l.pageMap[id], page)]))
  }

  /** `insert_box_data`: the id's boxed state becomes `ptr`, replacing any previous one. */
  function InsertBoxData(l: Ledger, id: DomainId, ptr: nat): (r: Ledger)
    ensures id in r.boxData && r.boxData[id] == ptr
    ensures r.boxData - {id} == l.boxData - {id}
    ensures r.pageMap == l.pageMap
  {
    l.(boxData := l.boxData[id := ptr])
  }

  /** `register_domain_resource`: `insert_box_data` on the global ledger. */
  function RegisterDomainResource(l: Ledger, id: DomainId, ptr: nat): (r: Ledger)
    ensures r.boxData.Keys == l.boxData.Keys + {id}
    ensures r.boxData[id] == ptr
    ensures r.boxData - {id} == l.boxData - {id}
    ensures r.pageMap == l.pageMap
  {
    InsertBoxData(l, id, ptr)
  }

  /** One `free_frames` effect per recorded range, in list order. */
  function FrameReleases(xs: seq<PageRange>): (r: seq<Release>)
    ensures |r| == |xs|
    ensures forall i :: 0 <= i < |xs| ==> r[i].FreeFrames?
  {
    if xs == [] then []
    else [FreeFrames(ShlFrame(xs[0].start), xs[0].count)] + FrameReleases(xs[1..])
  }

  /** `free_domain_resource(domain_id)`: shared data first, then the removed
      page list range by range, then the removed boxed state. */
  function FreeDomainResource(l: Ledger, id: DomainId): (r: ReleaseOutcome)
    ensures id !in r.ledger.pageMap && id !in r.ledger.boxData
    ensures r.ledger.pageMap == l.pageMap - {id}
    ensures r.ledger.boxData == l.boxData - {id}
    ensures |r.effects| == 1 + |Recorded(l, id)| + (if id in l.boxData then 1 else 0)
    ensures r.effects[0] == FreeSharedData(id)
    ensures forall i :: 0 <= i < |Recorded(l, id)| ==>
              r.effects[1 + i] == FreeFrames(ShlFrame(Recorded(l, id)[i].start), Recorded(l, id)[i].count)
    ensures id in l.boxData ==> r.effects[|r.effects| - 1] == DropDataMap(l.boxData[id])
  {
    var frames := FrameReleases(Recorded(l, id));
    var boxed := if id in l.boxData then [DropDataMap(l.boxData[id])] else [];
    FrameReleasesAt(Recorded(l, id));
    ReleaseOutcome(Ledger(l.pageMap - {id}, l.boxData - {id}), [FreeSharedData(id)] + frames + boxed)
  }

  lemma {:induction false} FrameReleasesAt(xs: seq<PageRange>)
    ensures forall i :: 0 <= i < |xs| ==>
              FrameReleases(xs)[i] == FreeFrames(ShlFrame(xs[i].start), xs[i].count)
  {
    if xs != [] {
      FrameReleasesAt(xs[1..]);
      forall i | 1 <= i < |xs|
        ensures FrameReleases(xs)[i] == FreeFrames(ShlFrame(xs[i].start), xs[i].count)
      {
        assert FrameReleases(xs)[i] == FrameReleases(xs[1..])[i - 1];
        assert xs[1..][i - 1] == xs[i];
      }
    }
  }

  /** A second release of the same id frees no pages and no boxed state:
      only the shared-data step runs again, and the ledger is unchanged. */
  lemma FreeTwiceIsNoop(l: Ledger, id: DomainId)
    ensures var first := FreeDomainResource(l, id);
            var second := FreeDomainResource(first.ledger, id);
            second.ledger == first.ledger && second.effects == [FreeSharedData(id)]
  {
  }

  /** Releasing one id leaves every other id's records as they were. */
  lemma FreeKeepsOthers(l: Ledger, id: DomainId, other: DomainId)
    requires other != id
    ensures var r := FreeDomainResource(l, id);
            Recorded(r.ledger, other) == Recorded(l, other)
            && (other in r.ledger.boxData <==> other in l.boxData)
            && (other in l.boxData ==> r.ledger.boxData[other] == l.boxData[other])
  {
  }

  /** Registered boxed state is what the next release of that id drops. */
  lemma RegisterThenFreeDropsBox(l: Ledger, id: DomainId, ptr: nat)
    ensures var r := FreeDomainResource(RegisterDomainResource(l, id, ptr), id);
            r.effects[|r.effects| - 1] == DropDataMap(ptr) && id !in r.ledger.boxData
  {
  }

  /** Retaining distributes over concatenation, so the kept ranges stay in order. */
  lemma {:induction false} DropStartAppend(a: seq<PageRange>, b: seq<PageRange>, page: nat)
    ensures DropStart(a + b, page) == DropStart(a, page) + DropStart(b, page)
  {
    if a == [] {
      assert a + b == b;
    } else {
      assert (a + b)[1..] == a[1..] + b;
      DropStartAppend(a[1..], b, page);
    }
  }

  /** A list without ranges at `page` is left as it is. */
  lemma {:induction false} DropStartNoMatch(xs: seq<PageRange>, page: nat)
    requires forall x :: x in xs ==> x.start != page
    ensures DropStart(xs, page) == xs
  {
    if xs != [] {
      assert xs[0] in xs;
      DropStartNoMatch(xs[1..], page);
    }
  }

  /** Recording a range and then freeing its start page undoes the insertion,
      provided no other range of that id started there. */
  lemma InsertThenFreePageMap(l: Ledger, id: DomainId, page: PageRange)
    requires id in l.pageMap
    requires forall x :: x in l.pageMap[id] ==> x.start != page.start
    ensures FreePageMap(InsertPageMap(l, id, page), id, page.start) == Ok(l)
  {
    var xs := l.pageMap[id];
    DropStartAppend(xs, [page], page.start);
    DropStartNoMatch(xs, page.start);
    assert DropStart([page], page.start) == [];
    var ins := InsertPageMap(l, id, page);
    assert ins.pageMap[id] == xs + [page];
    assert DropStart(ins.pageMap[id], page.start) == xs;
    assert ins.pageMap[id := xs] == l.pageMap;
    assert ins.(pageMap := ins.pageMap[id := xs]) == l;
  }
}
