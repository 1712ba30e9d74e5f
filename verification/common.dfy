/** Definitions shared by every part of the domain runtime model: machine word
    bounds, the page geometry of the kernel configuration, and the result type
    that stands for `AlienResult` plus a Rust panic. */
module Kernel {

  /** 2^64: every `u64`/`usize` of the RISC-V 64 target lives below this. */
  const WORD_MODULUS: int := 0x1_0000_0000_0000_0000
  const U64_MAX: int := WORD_MODULUS - 1

  predicate IsWord(x: int) { 0 <= x < WORD_MODULUS }

  /** A `u64`/`usize` value. */
  type Usize = x: int | 0 <= x < WORD_MODULUS

  /** Domain identifiers are `u64`. */
  type DomainId = Usize

  /** Page geometry of the kernel configuration (4 KiB frames). */
  const FRAME_BITS: nat := 12
  const FRAME_SIZE: nat := 4096

  /** `x << FRAME_BITS` on a 64-bit `usize`: bits shifted past bit 63 are lost. */
  function ShlFrame(x: nat): (r: nat)
    ensures r < WORD_MODULUS
    ensures r % FRAME_SIZE == 0
    ensures x * FRAME_SIZE < WORD_MODULUS ==> r == x * FRAME_SIZE
  {
    (x * FRAME_SIZE) % WORD_MODULUS
  }

  /** `x >> FRAME_BITS` on an unsigned word. */
  function ShrFrame(x: nat): nat
  {
    x / FRAME_SIZE
  }

  /** The error values of `AlienError` that this model produces. */
  datatype AlienError = DomainCrash | Other

  /** A Rust panic (`unwrap` on `None`, a failed `assert!`, an index out of
      bounds): the kernel stops, so nothing after it happens. */
  datatype Panic =
    | UnwrapNone(what: string)
    | UnwrapErr(what: string)
    | AssertFailed(what: string)
    | IndexOutOfBounds(index: nat, len: nat)
    | Explicit(what: string)

  /** `AlienResult<T>` extended with the panic outcome. */
  datatype Result<+T> = Ok(value: T) | Err(error: AlienError) | Abort(panic: Panic) {

    predicate IsFailure() { !Ok? }

    function PropagateFailure<U>(): Result<U>
      requires !Ok?
    {
      if Err? then Err(error) else Abort(panic)
    }

    function Extract(): T
      requires Ok?
    {
      value
    }
  }

  datatype Option<+T> = None | Some(value: T)
}
