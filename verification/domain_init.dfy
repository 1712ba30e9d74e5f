/** Boot-time registration of the initial domains from the initrd
    (`kernel/src/domain/init.rs`): the decoded cpio entries whose names start
    with `g` are collected into a map keyed by the rest of the name, then every
    domain of `INIT_DOMAIN_LIST` is registered, in list order, with the image
    stored under its name. Decompression and cpio parsing are not modelled:
    the decoded entry list is the input. */
module DomainInit {
  import opened Kernel

  /** `DomainTypeRaw`, the variants the initial list uses. */
  datatype DomainTypeRaw =
    | BufUartDomain
    | BufInputDomain
    | CacheBlkDeviceDomain
    | DevFsDomain
    | FsDomain
    | RtcDomain
    | EmptyDeviceDomain
    | PlicDomain
    | ShadowBlockDomain
    | SysCallDomain
    | SchedulerDomain
    | TaskDomain
    | VfsDomain
    | UartDomain
    | BlkDeviceDomain
    | NetDomain
    | LogDomain

  datatype InitDomain = InitDomain(name: string, ty: DomainTypeRaw)

  /** `INIT_DOMAIN_LIST`, in registration order. */
  const INIT_DOMAIN_LIST: seq<InitDomain> := [
    InitDomain("buf_uart", BufUartDomain),
    InitDomain("buf_input", BufInputDomain),
    InitDomain("cache_blk", CacheBlkDeviceDomain),
    InitDomain("devfs", DevFsDomain),
    InitDomain("fatfs", FsDomain),
    InitDomain("goldfish", RtcDomain),
    InitDomain("null", EmptyDeviceDomain),
    InitDomain("pipefs", FsDomain),
    InitDomain("plic", PlicDomain),
    InitDomain("procfs", FsDomain),
    InitDomain("ramfs", FsDomain),
    InitDomain("random", EmptyDeviceDomain),
    InitDomain("shadow_blk", ShadowBlockDomain),
    InitDomain("syscall", SysCallDomain),
    InitDomain("sysfs", FsDomain),
    InitDomain("fifo_scheduler", SchedulerDomain),
    InitDomain("task", TaskDomain),
    InitDomain("vfs", VfsDomain),
    InitDomain("uart16550", UartDomain),
    InitDomain("virtio_mmio_block", BlkDeviceDomain),
    InitDomain("net_stack", NetDomain),
    InitDomain("logger", LogDomain)
  ]

  /** One decoded cpio entry. */
  datatype Entry = Entry(name: string, data: seq<bv8>)

  /** One `register_domain_elf(name, data, type)` call. */
  datatype Registration = Registration(name: string, data: seq<bv8>, ty: DomainTypeRaw)

  type Images = map<string, seq<bv8>>

  /** `str::split_once(c)`: the text before and after the first `c`. */
  function SplitOnce(s: string, c: char): (r: Option<(string, string)>)
    ensures r.Some? <==> c in s
    ensures r.Some? ==> s == r.value.0 + [c] + r.value.1 && c !in r.value.0
  {
    if s == [] then None
    else if s[0] == c then Some(([], s[1..]))
    else match SplitOnce(s[1..], c)
      case None => None
      case Some((before, after)) => Some(([s[0]] + before, after))
  }

  predicate StartsWithG(name: string)
  {
    |name| > 0 && name[0] == 'g'
  }

  /** The map key of an entry: the name after its first `g`. For a name
      starting with `g` the `unwrap` cannot fail and the key is the name
      without its leading `g`. */
  function KeyOf(name: string): (k: string)
    requires StartsWithG(name)
    ensures name == ['g'] + k
  {
    var parts := SplitOnce(name, 'g');
    assert name[0] in name;
    parts.value.1
  }

  /** One iteration of the entry loop: `insert`, replacing an earlier image. */
  function Insert(m: Images, e: Entry): Images
  {
    if StartsWithG(e.name) then m[KeyOf(e.name) := e.data] else m
  }

  /** The entry loop over the entries left, starting from the map built so far. */
  function BuildFrom(m: Images, es: seq<Entry>): Images
    decreases |es|
  {
    if es == [] then m else BuildFrom(Insert(m, es[0]), es[1..])
  }

  /** The image map the loop builds from an empty `BTreeMap`. */
  function BuildMap(es: seq<Entry>): (m: Images)
    ensures forall k :: k in m <==> Lookup(es, k).Some?
    ensures forall k :: k in m ==> m[k] == Lookup(es, k).value
  {
    BuildFromAgrees(map[], es);
    BuildFrom(map[], es)
  }

  /** The reference reading of the map: the image of the LAST entry named
      `g` followed by the key, searching from the end of the archive. */
  function Lookup(es: seq<Entry>, key: string): Option<seq<bv8>>
  {
    if es == [] then None
    else if es[|es| - 1].name == ['g'] + key then Some(es[|es| - 1].data)
    else Lookup(es[..|es| - 1], key)
  }

  /** A front entry only decides the lookup when no later entry matches. */
  lemma {:induction false} LookupFront(e: Entry, es: seq<Entry>, key: string)
    ensures Lookup([e] + es, key)
            == if Lookup(es, key).Some? then Lookup(es, key)
               else if e.name == ['g'] + key then Some(e.data) else None
  {
    if es == [] {
      assert [e] + es == [e];
      assert [e][..0] == [];
    } else {
      var all := [e] + es;
      assert all[|all| - 1] == es[|es| - 1];
      assert all[..|all| - 1] == [e] + es[..|es| - 1];
      LookupFront(e, es[..|es| - 1], key);
    }
  }

  /** The loop agrees with the reference reading, whatever map it starts from. */
  lemma {:induction false} BuildFromAgrees(m: Images, es: seq<Entry>)
    decreases |es|
    ensures forall k :: k in BuildFrom(m, es) <==> Lookup(es, k).Some? || k in m
    ensures forall k :: k in BuildFrom(m, es) ==>
              BuildFrom(m, es)[k] == if Lookup(es, k).Some? then Lookup(es, k).value else m[k]
  {
    if es != [] {
      var m1 := Insert(m, es[0]);
      BuildFromAgrees(m1, es[1..]);
      assert es == [es[0]] + es[1..];
      forall k
        ensures Lookup(es, k) == if Lookup(es[1..], k).Some? then Lookup(es[1..], k)
                                 else if es[0].name == ['g'] + k then Some(es[0].data) else None
      {
        LookupFront(es[0], es[1..], k);
      }
      forall k
        ensures k in m1 <==> (es[0].name == ['g'] + k || k in m)
        ensures k in m1 ==> m1[k] == if es[0].name == ['g'] + k then es[0].data else m[k]
      {
        if StartsWithG(es[0].name) && es[0].name == ['g'] + k {
          assert KeyOf(es[0].name) == k;
        }
      }
    }
  }

  /** The names of a list are pairwise distinct. */
  predicate Distinct(list: seq<InitDomain>)
  {
    forall i, j :: 0 <= i < j < |list| ==> list[i].name != list[j].name
  }

  /** The registration loop: `map.remove(name).unwrap()` for each listed
      domain in order; a name that is missing, or already removed, panics. */
  function RegisterAll(m: Images, list: seq<InitDomain>): (r: Result<seq<Registration>>)
    ensures !r.Err?
    ensures r.Ok? ==> Distinct(list)
    ensures r.Ok? ==> |r.value| == |list|
    ensures r.Ok? ==> forall i :: 0 <= i < |list| ==>
              list[i].name in m && r.value[i] == Registration(list[i].name, m[list[i].name], list[i].ty)
    ensures Distinct(list) && (forall i :: 0 <= i < |list| ==> list[i].name in m) ==> r.Ok?
    ensures (exists i :: 0 <= i < |list| && list[i].name !in m) ==> r.Abort?
  {
    if list == [] then Ok([])
    else
      var name := list[0].name;
      if name !in m then Abort(UnwrapNone("initrd image"))
      else
        var rest := RegisterAll(m - {name}, list[1..]);
        if !rest.Ok? then rest
        else
          assert forall i :: 1 <= i < |list| ==> list[i] == list[1..][i - 1];
          Ok([Registration(name, m[name], list[0].ty)] + rest.value)
  }

  /** `init_domains`: the initrd must be present, then the map is built and
      the list registered. */
  function InitDomains(initrd: Option<seq<Entry>>): (r: Result<seq<Registration>>)
    ensures initrd.None? ==> r == Abort(Explicit("Initrd data is not initialized"))
    ensures !r.Err?
    ensures r.Ok? ==> |r.value| == |INIT_DOMAIN_LIST|
    ensures r.Ok? ==> forall i :: 0 <= i < |INIT_DOMAIN_LIST| ==>
              && r.value[i].name == INIT_DOMAIN_LIST[i].name
              && r.value[i].ty == INIT_DOMAIN_LIST[i].ty
              && Some(r.value[i].data) == Lookup(initrd.value, INIT_DOMAIN_LIST[i].name)
  {
    if initrd.None? then Abort(Explicit("Initrd data is not initialized"))
    else RegisterAll(BuildMap(initrd.value), INIT_DOMAIN_LIST)
  }

  /** The names at positions `lo` to `hi - 1` differ from every later name. */
  predicate DistinctRows(list: seq<InitDomain>, lo: nat, hi: nat)
  {
    forall i, j :: lo <= i < hi && i < j < |list| ==> list[i].name != list[j].name
  }

  // The distinctness of the list, proved a few rows at a time.
  lemma Rows0() ensures DistinctRows(INIT_DOMAIN_LIST, 0, 2) {}
  lemma Rows1() ensures DistinctRows(INIT_DOMAIN_LIST, 2, 4) {}
  lemma Rows2() ensures DistinctRows(INIT_DOMAIN_LIST, 4, 7) {}
  lemma Rows3() ensures DistinctRows(INIT_DOMAIN_LIST, 7, 10) {}
  lemma Rows4() ensures DistinctRows(INIT_DOMAIN_LIST, 10, 22) {}

  /** The listed names are pairwise distinct, so each is removed from the map once. */
  lemma InitListDistinct()
    ensures Distinct(INIT_DOMAIN_LIST)
  {
    Rows0(); Rows1(); Rows2(); Rows3(); Rows4();
  }

  /** Registration succeeds exactly when every listed domain has an image in
      the archive. */
  lemma InitSucceedsIffAllPresent(es: seq<Entry>)
    ensures InitDomains(Some(es)).Ok? <==>
            forall i :: 0 <= i < |INIT_DOMAIN_LIST| ==> Lookup(es, INIT_DOMAIN_LIST[i].name).Some?
  {
    InitListDistinct();
  }

  /** Entries whose names do not start with `g` are ignored, and a later
      entry for the same domain replaces an earlier one. */
  lemma LastEntryWins(es: seq<Entry>, e: Entry, key: string)
    requires e.name == ['g'] + key
    ensures BuildMap(es + [e])[key] == e.data
    ensures forall other: Entry :: !StartsWithG(other.name) ==> BuildMap(es + [other]) == BuildMap(es)
  {
    assert (es + [e])[|es + [e]| - 1] == e;
    forall other: Entry | !StartsWithG(other.name)
      ensures BuildMap(es + [other]) == BuildMap(es)
    {
      var all := es + [other];
      assert all[..|all| - 1] == es;
      forall k
        ensures Lookup(all, k) == Lookup(es, k)
      {
        assert all[|all| - 1] == other;
        assert other.name != ['g'] + k;
      }
    }
  }
}
