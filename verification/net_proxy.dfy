/** The crash-guard proxy in front of a network-stack domain
    (`NetDomainProxy`): every forwarded operation except `init` first asks the
    inner domain whether it is alive and answers `DOMAINCRASH` without calling
    the operation when it is not. The inner domain's answers are a parameter. */
module NetProxy {
  import opened Kernel

  /** Opaque argument and buffer values crossing the interface. */
  datatype DeviceInfo = DeviceInfo(token: nat)
  datatype NetBuf = NetBuf(token: nat)

  /** The methods of `NetDomain` and `DeviceBase`, with their arguments. */
  datatype NetOp =
    | Init(info: DeviceInfo)
    | MacAddress
    | CanTransmit
    | CanReceive
    | RxQueueSize
    | TxQueueSize
    | RecycleRxBuffer(rxBuf: NetBuf)
    | RecycleTxBuffers
    | Transmit(txBuf: NetBuf)
    | Receive
    | AllocTxBuffer(size: nat)
    | HandleIrq

  /** The success values of those methods (`[u8; 6]`, `bool`, `usize`, `()`, a buffer). */
  datatype NetValue = Mac(bytes: seq<bv8>) | Flag(b: bool) | Size(n: nat) | Unit | Buffer(buf: NetBuf)

  /** What the proxy asks of the inner domain. */
  datatype InnerCall = QueryActive | Invoke(op: NetOp)

  /** The inner domain as far as the proxy can observe it: its liveness. */
  datatype NetDomain = NetDomain(active: bool)

  datatype NetDomainProxy = NetDomainProxy(id: DomainId, domain: NetDomain)

  /** The proxy's answer and the calls it made on the inner domain, in order. */
  datatype Forwarded = Forwarded(result: Result<NetValue>, calls: seq<InnerCall>)

  /** `NetDomainProxy::new(id, domain)`. */
  function New(id: DomainId, domain: NetDomain): (p: NetDomainProxy)
    ensures p.id == id && p.domain == domain
  {
    NetDomainProxy(id, domain)
  }

  /** `Basic::is_active`: the inner domain's own answer. */
  function IsActive(p: NetDomainProxy): (r: Forwarded)
    ensures r.result == Ok(Flag(p.domain.active))
    ensures r.calls == [QueryActive]
  {
    Forwarded(Ok(Flag(p.domain.active)), [QueryActive])
  }

  /** One forwarded call; `inner` is what the inner domain answers to each operation. */
  function Call(p: NetDomainProxy, op: NetOp, inner: NetOp -> Result<NetValue>): (r: Forwarded)
    ensures op.Init? ==> r.result == inner(op) && r.calls == [Invoke(op)]
    ensures !op.Init? ==> |r.calls| >= 1 && r.calls[0] == QueryActive
    ensures !op.Init? && !p.domain.active ==> r.result == Err(DomainCrash) && Invoke(op) !in r.calls
    ensures !op.Init? && p.domain.active ==> r.result == inner(op) && r.calls == [QueryActive, Invoke(op)]
  {
    if op.Init? then Forwarded(inner(op), [Invoke(op)])
    else
      var alive := IsActive(p);
      if alive.result != Ok(Flag(true)) then Forwarded(Err(DomainCrash), alive.calls)
      else Forwarded(inner(op), alive.calls + [Invoke(op)])
  }

  /** A crashed inner domain is never invoked: whatever it would answer, the
      proxy's answer is the same `DOMAINCRASH`, for every operation but `init`. */
  lemma CrashedIgnoresInner(p: NetDomainProxy, op: NetOp,
                            inner1: NetOp -> Result<NetValue>, inner2: NetOp -> Result<NetValue>)
    requires !p.domain.active && !op.Init?
    ensures Call(p, op, inner1) == Call(p, op, inner2)
    ensures Call(p, op, inner1).result == Err(DomainCrash)
  {
  }

  /** A live inner domain is transparent: its answers, errors included, come
      back unchanged, and it is invoked exactly once. */
  lemma ActiveIsTransparent(p: NetDomainProxy, op: NetOp, inner: NetOp -> Result<NetValue>)
    requires p.domain.active
    ensures Call(p, op, inner).result == inner(op)
    ensures multiset(Call(p, op, inner).calls)[Invoke(op)] == 1
  {
  }

  /** A crash is reported exactly when the inner domain reports itself inactive
      and the operation is not `init`, provided the inner domain never answers
      `DOMAINCRASH` itself. */
  lemma CrashReportedIffInactive(p: NetDomainProxy, op: NetOp, inner: NetOp -> Result<NetValue>)
    requires inner(op) != Err(DomainCrash)
    ensures Call(p, op, inner).result == Err(DomainCrash) <==> !p.domain.active && !op.Init?
  {
  }
}
