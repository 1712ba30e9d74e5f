/** The kernel-side domain proxies (`kernel/src/domain_proxy`): the live
    domain slot, the loader behind its mutex, the saved init resource, and the
    hot-swap paths `replace` and `reload`. The SRCU grace period is one
    abstract `Synchronize` step; the effects of a swap are recorded as a trace
    so that their order and arguments can be stated. */
module DomainProxy {
  import opened Kernel
  import opened ResourceLedger

  /** A domain instance as the proxy sees it through the `Basic` trait. */
  datatype Domain =
    | Loaded(id: DomainId, active: bool) // an instance built by the loader
    | DevFsEmpty                         // `DevFsDomainEmptyImpl`, the placeholder

  /** `Basic::domain_id` of an instance. */
  function DomainIdOf(d: Domain): (r: DomainId)
    ensures d.DevFsEmpty? ==> r == U64_MAX
    ensures d.Loaded? ==> r == d.id
  {
    match d
    case Loaded(id, _) => id
    case DevFsEmpty => U64_MAX
  }

  /** `Basic::is_active` of an instance. */
  function IsActive(d: Domain): (r: bool)
    ensures d.DevFsEmpty? ==> !r
    ensures d.Loaded? ==> (r <==> d.active)
  {
    match d
    case Loaded(_, active) => active
    case DevFsEmpty => false
  }

  /** The proxy types whose maintenance paths are modelled. */
  datatype Kind = ShadowBlock | Log | Gpu | Input | NetDevice | Blk | DevFs

  /** The kinds that have a `replace` method. */
  predicate HasReplace(k: Kind)
  {
    k in {ShadowBlock, Log, Gpu, Input, NetDevice}
  }

  /** The saved `Box<dyn Any>` init resource, closed over the two shapes the
      swap paths downcast it to. */
  datatype InitResource = NameBlob(name: string) | RangeBlob(start: nat, end: nat)

  /** What `init` is called with. */
  datatype InitArgs = NameArg(name: string) | RangeArg(start: nat, end: nat) | NoArgs

  /** An opaque `DomainLoader` handle. */
  datatype Loader = Loader(image: nat, generation: nat)

  datatype Proxy = Proxy(kind: Kind, domain: Domain, loader: Loader, resource: Option<InitResource>)

  /** The steps of a swap, in the order they happen. */
  datatype Effect =
    | LockLoader                          // `self.domain_loader.lock()`
    | LoadImage                           // `loader.load()`
    | CaptureOldId(id: DomainId)          // `let old_id = self.domain_id()`
    | AllocId(id: DomainId)               // `alloc_domain_id()`
    | BuildDomain(id: DomainId)           // `loader.call(new_id)`
    | SwapDomain(retired: Domain, installed: Domain)
    | Synchronize                         // `self.srcu_lock.synchronize()`
    | ForgetDomain(d: Domain)             // `forget(real_domain)`: no destructor runs
    | FreeResources(id: DomainId)         // `free_domain_resource(old_id)`
    | InitDomain(id: DomainId, args: InitArgs)
    | StoreLoader(loader: Loader)         // `*loader_guard = loader`

  /** Either the swap ran to completion, or a panic stopped it after `trace`. */
  datatype SwapOutcome =
    | Swapped(proxy: Proxy, ledger: Ledger, trace: seq<Effect>, released: seq<Release>)
    | Crashed(panic: Panic, trace: seq<Effect>)

  /** `build(domain, loader)`: a proxy over a loaded instance, no resource saved yet. */
  function Build(kind: Kind, d: Domain, loader: Loader): (p: Proxy)
    ensures p.domain == d && p.loader == loader && p.kind == kind && p.resource.None?
  {
    Proxy(kind, d, loader, None)
  }

  /** `build_empty(loader)` for the DevFs proxy: the placeholder instance. */
  function BuildEmptyDevFs(loader: Loader): (p: Proxy)
    ensures ProxyDomainId(p) == U64_MAX && !ProxyIsActive(p)
    ensures p.loader == loader
  {
    Proxy(DevFs, DevFsEmpty, loader, None)
  }

  /** `Basic::domain_id` of the proxy: the live instance's answer, read under the SRCU read lock. */
  function ProxyDomainId(p: Proxy): (r: DomainId)
    ensures p.domain.DevFsEmpty? ==> r == U64_MAX
    ensures p.domain.Loaded? ==> r == p.domain.id
  {
    DomainIdOf(p.domain)
  }

  /** `Basic::is_active` of the proxy: the live instance's answer. */
  function ProxyIsActive(p: Proxy): (r: bool)
    ensures r <==> p.domain.Loaded? && p.domain.active
  {
    IsActive(p.domain)
  }

  /** The downcast of the saved resource on each swap path: ShadowBlock wants
      a `String`, Log reads nothing, the device kinds want a `Range<usize>`;
      a missing or mistyped resource makes the `unwrap` panic. */
  function InitArgsFor(kind: Kind, resource: Option<InitResource>): (r: Result<InitArgs>)
    ensures r.Ok? && kind == Log ==> r.value == NoArgs
    ensures kind == Log ==> r.Ok?
    ensures kind == ShadowBlock ==> (r.Ok? <==> resource.Some? && resource.value.NameBlob?)
    ensures kind == ShadowBlock && r.Ok? ==> r.value == NameArg(resource.value.name)
    ensures kind in {Gpu, Input, NetDevice, Blk} ==> (r.Ok? <==> resource.Some? && resource.value.RangeBlob?)
    ensures kind in {Gpu, Input, NetDevice, Blk} && r.Ok? ==>
              r.value == RangeArg(resource.value.start, resource.value.end)
    ensures !r.Err?
  {
    match kind
    case Log => Ok(NoArgs)
    case ShadowBlock =>
      if resource.None? then Abort(UnwrapNone("init resource"))
      else if resource.value.NameBlob? then Ok(NameArg(resource.value.name))
      else Abort(UnwrapNone("downcast to String"))
    case DevFs => Abort(UnwrapNone("init resource"))
    case _ =>
      if resource.None? then Abort(UnwrapNone("init resource"))
      else if resource.value.RangeBlob? then Ok(RangeArg(resource.value.start, resource.value.end))
      else Abort(UnwrapNone("downcast to Range<usize>"))
  }

  /** The effects of a swap path after its own `prefix`: pointer swap, grace
      period, forget, release of the old id, then `init` with the saved
      resource and the store of the loader, cut short where a panic hits. */
  function SwapTrace(kind: Kind, resource: Option<InitResource>, oldDomain: Domain, newDomain: Domain,
                     loader: Loader, initOk: bool, prefix: seq<Effect>): seq<Effect>
  {
    var head := prefix + [SwapDomain(oldDomain, newDomain), Synchronize, ForgetDomain(oldDomain),
                          FreeResources(DomainIdOf(oldDomain))];
    var args := InitArgsFor(kind, resource);
    if !args.Ok? then head
    else if !initOk then head + [InitDomain(DomainIdOf(newDomain), args.value)]
    else head + [InitDomain(DomainIdOf(newDomain), args.value), StoreLoader(loader)]
  }

  /** The common tail of both swap paths, after the pointer swap. */
  function SwapTail(p: Proxy, l: Ledger, newDomain: Domain, loader: Loader, initOk: bool,
                    prefix: seq<Effect>): SwapOutcome
  {
    var freed := FreeDomainResource(l, DomainIdOf(p.domain));
    var trace := SwapTrace(p.kind, p.resource, p.domain, newDomain, loader, initOk, prefix);
    var args := InitArgsFor(p.kind, p.resource);
    if args.Ok? && initOk then
      Swapped(p.(domain := newDomain, loader := loader), freed.ledger, trace, freed.effects)
    else if args.Abort? then Crashed(args.panic, trace)
    else Crashed(UnwrapErr("init"), trace)
  }

  /** `replace(new_domain, loader)` on ShadowBlock/Log/Gpu/Input/NetDevice
      proxies. `initOk` is the answer of the new instance's `init`. */
  function Replace(p: Proxy, l: Ledger, newDomain: Domain, loader: Loader, initOk: bool): (r: SwapOutcome)
    requires HasReplace(p.kind)
    ensures r.Swapped? <==> InitArgsFor(p.kind, p.resource).Ok? && initOk
    ensures r.Swapped? ==> r.proxy.domain == newDomain && r.proxy.loader == loader
                           && r.proxy.kind == p.kind && r.proxy.resource == p.resource
    ensures r.Swapped? ==> DomainIdOf(p.domain) !in r.ledger.pageMap && DomainIdOf(p.domain) !in r.ledger.boxData
    ensures r.Swapped? ==> |r.released| > 0 && r.released[0] == FreeSharedData(DomainIdOf(p.domain))
    ensures r.Swapped? ==> r.ledger == FreeDomainResource(l, DomainIdOf(p.domain)).ledger
                           && r.released == FreeDomainResource(l, DomainIdOf(p.domain)).effects
    ensures |r.trace| >= 6 && r.trace[0] == LockLoader
    ensures forall e :: e in r.trace && e.FreeResources? ==> e.id == DomainIdOf(p.domain)
  {
    var oldId := DomainIdOf(p.domain);
    SwapTail(p, l, newDomain, loader, initOk, [LockLoader, CaptureOldId(oldId)])
  }

  /** `BlkDomainProxy::reload`: the cloned loader is reloaded (`load` answers
      `None` when that fails and the `unwrap` panics), a fresh id `newId` is
      allocated, and `build` stands for `loader.call(new_id)`. */
  function Reload(p: Proxy, l: Ledger, load: Loader -> Option<Loader>, newId: DomainId,
                  build: (Loader, DomainId) -> Domain, initOk: bool): (r: SwapOutcome)
    requires p.kind == Blk
    ensures load(p.loader).None? ==> r == Crashed(UnwrapErr("load"), [LockLoader, LoadImage])
    ensures load(p.loader).Some? ==> (r.Swapped? <==> InitArgsFor(Blk, p.resource).Ok? && initOk)
    ensures r.Swapped? ==> r.proxy.domain == build(load(p.loader).value, newId)
                           && r.proxy.loader == load(p.loader).value
                           && r.proxy.kind == Blk && r.proxy.resource == p.resource
    ensures r.Swapped? ==> DomainIdOf(p.domain) !in r.ledger.pageMap && DomainIdOf(p.domain) !in r.ledger.boxData
    ensures r.Swapped? ==> r.ledger == FreeDomainResource(l, DomainIdOf(p.domain)).ledger
                           && r.released == FreeDomainResource(l, DomainIdOf(p.domain)).effects
    ensures forall e :: e in r.trace && e.FreeResources? ==> e.id == DomainIdOf(p.domain)
  {
    match load(p.loader)
    case None => Crashed(UnwrapErr("load"), [LockLoader, LoadImage])
    case Some(loaded) =>
      var oldId := DomainIdOf(p.domain);
      var newDomain := build(loaded, newId);
      SwapTail(p, l, newDomain, loaded, initOk,
               [LockLoader, LoadImage, CaptureOldId(oldId), AllocId(newId), BuildDomain(newId)])
  }

  /** `a` happens strictly before `b` in `t`. */
  predicate Before(t: seq<Effect>, a: Effect, b: Effect)
  {
    exists i, j :: 0 <= i < j < |t| && t[i] == a && t[j] == b
  }

  lemma BeforeAt(t: seq<Effect>, i: nat, j: nat)
    requires i < j < |t|
    ensures Before(t, t[i], t[j])
  {
  }

  /** Every swap path performs the pointer swap, grace period, forget and
      release right after its own prefix, and afterwards only initialises
      and stores the loader. */
  lemma SwapTraceShape(kind: Kind, resource: Option<InitResource>, oldDomain: Domain, newDomain: Domain,
                       loader: Loader, initOk: bool, prefix: seq<Effect>)
    ensures var t := SwapTrace(kind, resource, oldDomain, newDomain, loader, initOk, prefix);
            var n := |prefix|;
            && |t| >= n + 4
            && t[..n] == prefix
            && t[n] == SwapDomain(oldDomain, newDomain)
            && t[n + 1] == Synchronize
            && t[n + 2] == ForgetDomain(oldDomain)
            && t[n + 3] == FreeResources(DomainIdOf(oldDomain))
            && (forall x :: x in t[n + 4..] ==> x.InitDomain? || x.StoreLoader?)
            && (InitArgsFor(kind, resource).Ok? && initOk ==>
                  && |t| == n + 6
                  && t[n + 4] == InitDomain(DomainIdOf(newDomain), InitArgsFor(kind, resource).value)
                  && t[n + 5] == StoreLoader(loader))
  {
  }

  lemma OccursOnce(t: seq<Effect>, i: nat)
    requires i < |t| && t[i] !in t[..i] && t[i] !in t[i + 1..]
    ensures multiset(t)[t[i]] == 1
  {
    assert t == t[..i] + [t[i]] + t[i + 1..];
  }

  /** The shape every swap path's trace has after its own prefix of length `n`. */
  predicate SwapShaped(t: seq<Effect>, n: nat, oldD: Domain, newD: Domain)
  {
    && |t| >= n + 4
    && t[n] == SwapDomain(oldD, newD) && t[n + 1] == Synchronize && t[n + 2] == ForgetDomain(oldD)
    && t[n + 3] == FreeResources(DomainIdOf(oldD))
    && (forall x :: x in t[..n] ==> !x.FreeResources? && !x.Synchronize?)
    && (forall x :: x in t[n + 4..] ==> x.InitDomain? || x.StoreLoader?)
  }

  /** In such a trace the swap, grace period, forget and release happen in that order. */
  lemma SwapCoreBefore(t: seq<Effect>, n: nat, oldD: Domain, newD: Domain)
    requires SwapShaped(t, n, oldD, newD)
    ensures Before(t, SwapDomain(oldD, newD), Synchronize)
    ensures Before(t, Synchronize, ForgetDomain(oldD))
    ensures Before(t, ForgetDomain(oldD), FreeResources(DomainIdOf(oldD)))
  {
    BeforeAt(t, n, n + 1);
    BeforeAt(t, n + 1, n + 2);
    BeforeAt(t, n + 2, n + 3);
  }

  /** In such a trace the old id is released exactly once. */
  lemma SwapCoreFreesOnce(t: seq<Effect>, n: nat, oldD: Domain, newD: Domain)
    requires SwapShaped(t, n, oldD, newD)
    ensures multiset(t)[FreeResources(DomainIdOf(oldD))] == 1
  {
    var free := FreeResources(DomainIdOf(oldD));
    var tail := t[n + 4..];
    forall x | x in tail
      ensures x != free
    {
      assert x.InitDomain? || x.StoreLoader?;
    }
    assert t[..n + 3] == t[..n] + [t[n], t[n + 1], t[n + 2]];
    assert free !in t[..n];
    assert t[n + 4..] == t[n + 3 + 1..];
    OccursOnce(t, n + 3);
  }

  /** In such a trace the grace period happens exactly once. */
  lemma SwapCoreSyncOnce(t: seq<Effect>, n: nat, oldD: Domain, newD: Domain)
    requires SwapShaped(t, n, oldD, newD)
    ensures multiset(t)[Synchronize] == 1
  {
    var tail := t[n + 4..];
    forall x | x in tail
      ensures x != Synchronize
    {
      assert x.InitDomain? || x.StoreLoader?;
    }
    assert t[n + 2..] == [t[n + 2], t[n + 3]] + tail;
    assert Synchronize !in t[n + 2..];
    assert t[..n + 1] == t[..n] + [t[n]];
    assert Synchronize !in t[..n];
    OccursOnce(t, n + 1);
  }

  /** In such a trace no id other than the old one is released. */
  lemma SwapCoreFreesNoOther(t: seq<Effect>, n: nat, oldD: Domain, newD: Domain, other: DomainId)
    requires SwapShaped(t, n, oldD, newD)
    requires other != DomainIdOf(oldD)
    ensures FreeResources(other) !in t
  {
    var freeOther := FreeResources(other);
    var tail := t[n + 4..];
    forall x | x in tail
      ensures x != freeOther
    {
      assert x.InitDomain? || x.StoreLoader?;
    }
    assert freeOther !in t[..n];
    assert t == t[..n] + [t[n], t[n + 1], t[n + 2], t[n + 3]] + t[n + 4..];
  }

  /** The ordering of a replace: the old id is read before the swap, the old
      instance is forgotten and its resources are released only after the
      grace period, exactly once, and the new instance is initialised after
      that and before the loader is stored. */
  lemma ReplaceOrdering(p: Proxy, l: Ledger, newDomain: Domain, loader: Loader, initOk: bool)
    requires HasReplace(p.kind)
    ensures var r := Replace(p, l, newDomain, loader, initOk);
            var oldId := DomainIdOf(p.domain);
            && Before(r.trace, CaptureOldId(oldId), SwapDomain(p.domain, newDomain))
            && Before(r.trace, SwapDomain(p.domain, newDomain), Synchronize)
            && Before(r.trace, Synchronize, ForgetDomain(p.domain))
            && Before(r.trace, ForgetDomain(p.domain), FreeResources(oldId))
            && multiset(r.trace)[FreeResources(oldId)] == 1
            && multiset(r.trace)[Synchronize] == 1
            && (r.Swapped? ==>
                  var args := InitArgsFor(p.kind, p.resource).value;
                  && Before(r.trace, FreeResources(oldId), InitDomain(DomainIdOf(newDomain), args))
                  && Before(r.trace, InitDomain(DomainIdOf(newDomain), args), StoreLoader(loader)))
  {
    var oldId := DomainIdOf(p.domain);
    var prefix := [LockLoader, CaptureOldId(oldId)];
    var t := SwapTrace(p.kind, p.resource, p.domain, newDomain, loader, initOk, prefix);
    assert Replace(p, l, newDomain, loader, initOk).trace == t;
    SwapTraceIsShaped(p.kind, p.resource, p.domain, newDomain, loader, initOk, prefix);
    assert t[1] == prefix[1];
    ShapedReplaceFacts(t, p.domain, newDomain);
    if Replace(p, l, newDomain, loader, initOk).Swapped? {
      SwapTraceShape(p.kind, p.resource, p.domain, newDomain, loader, initOk, prefix);
      BeforeAt(t, 5, 6);
      BeforeAt(t, 6, 7);
    }
  }

  /** The replace facts for any trace of the swap shape whose prefix captures the old id. */
  lemma ShapedReplaceFacts(t: seq<Effect>, oldD: Domain, nd: Domain)
    requires SwapShaped(t, 2, oldD, nd) && t[1] == CaptureOldId(DomainIdOf(oldD))
    ensures var oldId := DomainIdOf(oldD);
            && Before(t, CaptureOldId(oldId), SwapDomain(oldD, nd))
            && Before(t, SwapDomain(oldD, nd), Synchronize)
            && Before(t, Synchronize, ForgetDomain(oldD))
            && Before(t, ForgetDomain(oldD), FreeResources(oldId))
            && multiset(t)[FreeResources(oldId)] == 1
            && multiset(t)[Synchronize] == 1
  {
    BeforeAt(t, 1, 2);
    SwapCoreBefore(t, 2, oldD, nd);
    SwapCoreFreesOnce(t, 2, oldD, nd);
    SwapCoreSyncOnce(t, 2, oldD, nd);
  }

  lemma ReloadTrace(p: Proxy, l: Ledger, load: Loader -> Option<Loader>, newId: DomainId,
                    build: (Loader, DomainId) -> Domain, initOk: bool)
    requires p.kind == Blk
    requires load(p.loader).Some?
    ensures var loaded := load(p.loader).value;
            Reload(p, l, load, newId, build, initOk).trace
            == SwapTrace(p.kind, p.resource, p.domain, build(loaded, newId), loaded, initOk,
                         [LockLoader, LoadImage, CaptureOldId(DomainIdOf(p.domain)), AllocId(newId), BuildDomain(newId)])
  {
  }

  /** A swap trace after a prefix with no release and no grace period has the
      shape of every swap path. */
  lemma SwapTraceIsShaped(kind: Kind, resource: Option<InitResource>, oldD: Domain, nd: Domain,
                          loader: Loader, initOk: bool, prefix: seq<Effect>)
    requires forall x :: x in prefix ==> !x.FreeResources? && !x.Synchronize?
    ensures var t := SwapTrace(kind, resource, oldD, nd, loader, initOk, prefix);
            SwapShaped(t, |prefix|, oldD, nd) && t[..|prefix|] == prefix
  {
    SwapTraceShape(kind, resource, oldD, nd, loader, initOk, prefix);
  }

  /** The reload facts for any trace of that shape whose prefix captures the
      old id and then allocates the new one. */
  lemma ShapedReloadFacts(t: seq<Effect>, oldD: Domain, nd: Domain, newId: DomainId)
    requires SwapShaped(t, 5, oldD, nd)
    requires t[2] == CaptureOldId(DomainIdOf(oldD)) && t[3] == AllocId(newId)
    ensures var oldId := DomainIdOf(oldD);
            && multiset(t)[FreeResources(oldId)] == 1
            && (newId != oldId ==> FreeResources(newId) !in t)
            && Before(t, CaptureOldId(oldId), AllocId(newId))
            && Before(t, AllocId(newId), SwapDomain(oldD, nd))
            && Before(t, Synchronize, FreeResources(oldId))
  {
    BeforeAt(t, 2, 3);
    BeforeAt(t, 3, 5);
    BeforeAt(t, 6, 8);
    SwapCoreFreesOnce(t, 5, oldD, nd);
    if newId != DomainIdOf(oldD) {
      SwapCoreFreesNoOther(t, 5, oldD, nd, newId);
    }
  }

  /** The facts about a reload trace, stated over the trace function alone. */
  lemma ReloadTraceFacts(kind: Kind, resource: Option<InitResource>, oldD: Domain, nd: Domain,
                         loaded: Loader, initOk: bool, newId: DomainId)
    ensures var oldId := DomainIdOf(oldD);
            var t := SwapTrace(kind, resource, oldD, nd, loaded, initOk,
                               [LockLoader, LoadImage, CaptureOldId(oldId), AllocId(newId), BuildDomain(newId)]);
            && multiset(t)[FreeResources(oldId)] == 1
            && (newId != oldId ==> FreeResources(newId) !in t)
            && Before(t, CaptureOldId(oldId), AllocId(newId))
            && Before(t, AllocId(newId), SwapDomain(oldD, nd))
            && Before(t, Synchronize, FreeResources(oldId))
  {
    var oldId := DomainIdOf(oldD);
    var prefix := [LockLoader, LoadImage, CaptureOldId(oldId), AllocId(newId), BuildDomain(newId)];
    var t := SwapTrace(kind, resource, oldD, nd, loaded, initOk, prefix);
    SwapTraceIsShaped(kind, resource, oldD, nd, loaded, initOk, prefix);
    assert t[2] == prefix[2] && t[3] == prefix[3];
    ShapedReloadFacts(t, oldD, nd, newId);
  }

  /** `reload` frees the id that was live before the swap, never the freshly
      allocated one (when they differ), and installs the instance built for
      the fresh id only after the old id has been captured. */
  lemma ReloadFreesOldId(p: Proxy, l: Ledger, load: Loader -> Option<Loader>, newId: DomainId,
                         build: (Loader, DomainId) -> Domain, initOk: bool)
    requires p.kind == Blk
    requires load(p.loader).Some?
    ensures var r := Reload(p, l, load, newId, build, initOk);
            var oldId := DomainIdOf(p.domain);
            && multiset(r.trace)[FreeResources(oldId)] == 1
            && (newId != oldId ==> FreeResources(newId) !in r.trace)
            && Before(r.trace, CaptureOldId(oldId), AllocId(newId))
            && Before(r.trace, AllocId(newId), SwapDomain(p.domain, build(load(p.loader).value, newId)))
            && Before(r.trace, Synchronize, FreeResources(oldId))
  {
    ReloadTrace(p, l, load, newId, build, initOk);
    ReloadTraceFacts(p.kind, p.resource, p.domain, build(load(p.loader).value, newId),
                     load(p.loader).value, initOk, newId);
  }

  /** Once the saved resource fits the kind, a replace with an active
      instance whose `init` succeeds makes the proxy report that instance's
      id and liveness, whatever it held before, and releases the id that
      was live before. */
  lemma ReplaceRevivesProxy(p: Proxy, l: Ledger, d: DomainId, next: Loader)
    requires HasReplace(p.kind) && InitArgsFor(p.kind, p.resource).Ok?
    ensures var r := Replace(p, l, Loaded(d, true), next, true);
            && r.Swapped?
            && ProxyDomainId(r.proxy) == d && ProxyIsActive(r.proxy)
            && r.released[0] == FreeSharedData(ProxyDomainId(p))
  {
  }
}
