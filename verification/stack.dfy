/** Kernel stacks (`kernel/src/task/stack.rs`): a run of physically
    contiguous frames, each held by a `FrameTracker` for its page number. The
    contiguous allocation `frame_alloc_contiguous` is not part of this model;
    the address it returns is a parameter. */
module KernelStack {
  import opened Kernel

  /** A `FrameTracker`: the page number of the frame it owns. */
  datatype Frame = Frame(page: nat)

  datatype Stack = Stack(frames: seq<Frame>)

  /** `FrameTracker::end`: the address one past the frame. */
  function FrameEnd(f: Frame): (r: nat)
    ensures r % FRAME_SIZE == 0 && r >= FRAME_SIZE
  {
    (f.page + 1) * FRAME_SIZE
  }

  /** `Stack::new(pages)`: the allocated address shifted down to a page
      number, then one tracker per page for `base + i`. */
  function New(pages: nat, allocAddr: Usize): (r: Option<Stack>)
    ensures r.Some?
    ensures |r.value.frames| == pages
    ensures forall i :: 0 <= i < pages ==> r.value.frames[i].page == ShrFrame(allocAddr) + i
  {
    var base := ShrFrame(allocAddr);
    Some(Stack(seq(pages, i requires 0 <= i < pages => Frame(i + base))))
  }

  /** `Stack::top`: the end of the last frame; the `unwrap` panics on a stack without frames. */
  function Top(s: Stack): (r: Result<nat>)
    ensures !r.Err?
    ensures r.Abort? <==> s.frames == []
    ensures r.Ok? ==> r.value == FrameEnd(s.frames[|s.frames| - 1])
  {
    if s.frames == [] then Abort(UnwrapNone("last frame"))
    else Ok(FrameEnd(s.frames[|s.frames| - 1]))
  }

  /** The frames of a new stack are consecutive and ascending. */
  lemma NewIsContiguous(pages: nat, allocAddr: Usize)
    ensures var frames := New(pages, allocAddr).value.frames;
            forall i, j :: 0 <= i < j < pages ==> frames[j].page == frames[i].page + (j - i)
  {
  }

  /** A new stack of `pages > 0` frames spans exactly `pages * FRAME_SIZE`
      bytes below its top, starting at the page holding the allocated address. */
  lemma NewThenTop(pages: nat, allocAddr: Usize)
    requires pages > 0
    ensures var top := Top(New(pages, allocAddr).value);
            && top.Ok?
            && top.value == ShrFrame(allocAddr) * FRAME_SIZE + pages * FRAME_SIZE
            && top.value - pages * FRAME_SIZE <= allocAddr < top.value - pages * FRAME_SIZE + FRAME_SIZE
  {
  }

  /** A stack of no pages has no top. */
  lemma EmptyStackHasNoTop(allocAddr: Usize)
    ensures Top(New(0, allocAddr).value).Abort?
  {
  }
}
