/** The per-thread io_uring worker of src/main.rs: a table of `Entries` slots,
    each with a `statx` output buffer and the path it keeps alive, an occupancy
    mask, and the recorder that receives file sizes.

    The kernel ring is an abstract input: every wait hands back the sequence of
    completions that `handle_completed` then walks. Its contract (`Deliverable`)
    is that each completion names a slot that is occupied when it is handled,
    and `submit_and_wait(n)` returns at least `n` of them.

    The specification functions work on `RingState`, where the occupied slots
    are a set of indices; the `Worker` class keeps the source's `u64` mask and
    its invariant ties the mask to that set through `Mask.Slots`. */
module Uring {
  import opened Mask
  import opened Paths
  import opened Wrappers

  /** One completion queue entry: the slot index carried in `user_data`, the
      operation's result (zero or a negated errno) and the file size the kernel
      wrote into that slot's `statx` buffer. */
  datatype Completion = Completion(userData: nat, result: int, size: nat)

  /** One "failed to get metadata" message: the slot's path and the errno. */
  datatype StatxError = StatxError(path: Path, errno: int)

  /** The worker's state as values: the occupied slots, the per-slot paths and
      `stx_size` buffers, the sizes sent to the recorder and the messages printed. */
  datatype RingState = RingState(
    pending: set<nat>,
    paths: seq<Option<Path>>,
    bufs: seq<nat>,
    recorded: seq<nat>,
    errors: seq<StatxError>)

  /** The worker's invariant: a table of `Entries` slots, and every occupied
      slot is one of them and keeps its path alive (the error branch of
      `handle_completed` unwraps it). */
  predicate Consistent(s: RingState) {
    && |s.paths| == Entries
    && |s.bufs| == Entries
    && forall i :: i in s.pending ==> i < Entries && s.paths[i].Some?
  }

  /** Every slot is occupied: `active_mask == (1 << IO_URING_ENTRIES) - 1`. */
  predicate Full(s: RingState) {
    AllOccupied(s.pending)
  }

  /** What the kernel may hand back while `pending` are occupied: each
      completion names a slot that is still occupied when it is handled. */
  predicate Deliverable(pending: set<nat>, cqes: seq<Completion>)
    decreases |cqes|
  {
    |cqes| == 0 ||
    (cqes[0].userData in pending && Deliverable(pending - {cqes[0].userData}, cqes[1..]))
  }

  /** The state of a freshly built worker: nothing pending, no path kept. */
  function Initial(): (s: RingState)
    ensures Consistent(s) && !Full(s) && s.pending == {}
    ensures forall i :: 0 <= i < |s.paths| ==> s.paths[i].None?
    ensures s.recorded == [] && s.errors == []
  {
    var none: set<nat> := {};
    assert 0 !in none;
    RingState(none, seq(Entries, _ => None), seq(Entries, _ => 0), [], [])
  }

  /** One iteration of `handle_completed`: free the slot, then record the size
      under the include-empty rule, or report the slot's path. */
  function HandleOne(s: RingState, c: Completion, includeEmpty: bool): (t: RingState)
    requires Consistent(s) && c.userData in s.pending
    ensures Consistent(t)
    ensures t.pending == s.pending - {c.userData} && |t.pending| + 1 == |s.pending|
    ensures t.paths == s.paths
    ensures c.result == 0 ==> t.errors == s.errors
    ensures c.result == 0 && (includeEmpty || c.size != 0) ==> t.recorded == s.recorded + [c.size]
    ensures c.result == 0 && !includeEmpty && c.size == 0 ==> t.recorded == s.recorded
    ensures c.result != 0 ==> t.recorded == s.recorded
    ensures c.result != 0 ==>
      t.errors == s.errors + [StatxError(s.paths[c.userData].value, -c.result)]
  {
    var k := c.userData;
    var freed := s.(pending := s.pending - {k});
    if c.result == 0 then
      var bufs := s.bufs[k := c.size];
      var size := bufs[k];
      freed.(bufs := bufs,
             recorded := if includeEmpty || size != 0 then s.recorded + [size] else s.recorded)
    else
      freed.(errors := s.errors + [StatxError(s.paths[k].value, -c.result)])
  }

  /** `handle_completed`: every completion, in order. */
  function HandleAll(s: RingState, cqes: seq<Completion>, includeEmpty: bool): (t: RingState)
    requires Consistent(s) && Deliverable(s.pending, cqes)
    ensures Consistent(t)
    decreases |cqes|
  {
    if |cqes| == 0 then s else HandleAll(HandleOne(s, cqes[0], includeEmpty), cqes[1..], includeEmpty)
  }

  /** `submit` before its wait: slot `slot` becomes occupied and keeps `path`
      alive; no other slot, buffer or output changes. */
  function Claim(s: RingState, slot: nat, path: Path): (t: RingState)
    requires Consistent(s) && slot < Entries && slot !in s.pending
    ensures Consistent(t)
    ensures t.pending == s.pending + {slot} && |t.pending| == |s.pending| + 1
    ensures t.paths[slot] == Some(path)
    ensures forall i :: 0 <= i < |s.paths| && i != slot ==> t.paths[i] == s.paths[i]
    ensures t.bufs == s.bufs && t.recorded == s.recorded && t.errors == s.errors
  {
    s.(pending := s.pending + {slot}, paths := s.paths[slot := Some(path)])
  }

  /** The slot indices the completions name. */
  function Handled(cqes: seq<Completion>): set<nat>
    decreases |cqes|
  {
    if |cqes| == 0 then {} else {cqes[0].userData} + Handled(cqes[1..])
  }

  /** The sizes `handle_completed` sends to the recorder: those of successful
      completions, zero sizes only when empty files are included. */
  function Recorded(cqes: seq<Completion>, includeEmpty: bool): (r: seq<nat>)
    ensures |r| <= |cqes|
    ensures forall x :: x in r ==> includeEmpty || x != 0
    decreases |cqes|
  {
    if |cqes| == 0 then []
    else
      var c := cqes[0];
      (if c.result == 0 && (includeEmpty || c.size != 0) then [c.size] else [])
      + Recorded(cqes[1..], includeEmpty)
  }

  /** Whether every failed completion names a slot that keeps a path. */
  predicate PathsKept(cqes: seq<Completion>, paths: seq<Option<Path>>)
    decreases |cqes|
  {
    |cqes| == 0 ||
    ((cqes[0].result != 0 ==>
        cqes[0].userData < |paths| && paths[cqes[0].userData].Some?)
     && PathsKept(cqes[1..], paths))
  }

  /** The messages `handle_completed` prints: one per failed completion, with
      the path kept in its slot and the errno. */
  function Failures(cqes: seq<Completion>, paths: seq<Option<Path>>): (r: seq<StatxError>)
    requires PathsKept(cqes, paths)
    ensures |r| <= |cqes|
    decreases |cqes|
  {
    if |cqes| == 0 then []
    else
      var c := cqes[0];
      (if c.result != 0 then [StatxError(paths[c.userData].value, -c.result)] else [])
      + Failures(cqes[1..], paths)
  }

  /** The completions the kernel may deliver name distinct occupied slots, so
      there are at most as many as pending operations, and handling them frees
      exactly those slots: the pending count drops by one per completion. */
  lemma {:induction false} HandleAllPending(s: RingState, cqes: seq<Completion>, includeEmpty: bool)
    requires Consistent(s) && Deliverable(s.pending, cqes)
    ensures Handled(cqes) <= s.pending
    ensures HandleAll(s, cqes, includeEmpty).pending == s.pending - Handled(cqes)
    ensures |HandleAll(s, cqes, includeEmpty).pending| + |cqes| == |s.pending|
    ensures |cqes| <= |s.pending|
    decreases |cqes|
  {
    if |cqes| > 0 {
      var t := HandleOne(s, cqes[0], includeEmpty);
      HandleAllPending(t, cqes[1..], includeEmpty);
    }
  }

  /** Handling completions keeps every path: slots are freed, never cleared. */
  lemma {:induction false} HandleAllPaths(s: RingState, cqes: seq<Completion>, includeEmpty: bool)
    requires Consistent(s) && Deliverable(s.pending, cqes)
    ensures HandleAll(s, cqes, includeEmpty).paths == s.paths
    decreases |cqes|
  {
    if |cqes| > 0 {
      HandleAllPaths(HandleOne(s, cqes[0], includeEmpty), cqes[1..], includeEmpty);
    }
  }

  /** Handling completions appends exactly the sizes of `Recorded` to the
      recorder, in completion order. */
  lemma {:induction false} HandleAllRecorded(s: RingState, cqes: seq<Completion>, includeEmpty: bool)
    requires Consistent(s) && Deliverable(s.pending, cqes)
    ensures HandleAll(s, cqes, includeEmpty).recorded == s.recorded + Recorded(cqes, includeEmpty)
    decreases |cqes|
  {
    if |cqes| > 0 {
      var t := HandleOne(s, cqes[0], includeEmpty);
      HandleAllRecorded(t, cqes[1..], includeEmpty);
      var c := cqes[0];
      var head := if c.result == 0 && (includeEmpty || c.size != 0) then [c.size] else [];
      assert Recorded(cqes, includeEmpty) == head + Recorded(cqes[1..], includeEmpty);
      assert t.recorded == s.recorded + head;
      assert s.recorded + (head + Recorded(cqes[1..], includeEmpty))
          == (s.recorded + head) + Recorded(cqes[1..], includeEmpty);
    }
  }

  /** Every completion the kernel may deliver that fails names a slot whose
      path is still kept, so the error branch's unwrap never panics. */
  lemma {:induction false} DeliverableKeepsPaths(s: RingState, cqes: seq<Completion>, includeEmpty: bool)
    requires Consistent(s) && Deliverable(s.pending, cqes)
    ensures PathsKept(cqes, s.paths)
    decreases |cqes|
  {
    if |cqes| > 0 {
      var t := HandleOne(s, cqes[0], includeEmpty);
      DeliverableKeepsPaths(t, cqes[1..], includeEmpty);
    }
  }

  /** Handling completions prints exactly the messages of `Failures`, one per
      failed completion, in completion order. */
  lemma {:induction false} HandleAllErrors(s: RingState, cqes: seq<Completion>, includeEmpty: bool)
    requires Consistent(s) && Deliverable(s.pending, cqes)
    ensures PathsKept(cqes, s.paths)
    ensures HandleAll(s, cqes, includeEmpty).errors == s.errors + Failures(cqes, s.paths)
    decreases |cqes|
  {
    DeliverableKeepsPaths(s, cqes, includeEmpty);
    if |cqes| > 0 {
      var t := HandleOne(s, cqes[0], includeEmpty);
      HandleAllErrors(t, cqes[1..], includeEmpty);
      assert s.errors + Failures(cqes, s.paths)
          == t.errors + Failures(cqes[1..], s.paths);
    }
  }

  /** `submit` never returns with a full table: if claiming the slot filled the
      table, the wait for one completion frees a slot again; otherwise handling
      completions only frees slots. So the next `submit`'s assertion holds. */
  lemma NeverFullOnReturn(s: RingState, slot: nat, path: Path, cqes: seq<Completion>, includeEmpty: bool)
    requires Consistent(s) && slot < Entries && slot !in s.pending
    requires Deliverable(Claim(s, slot, path).pending, cqes)
    requires Full(Claim(s, slot, path)) ==> |cqes| >= 1
    ensures !Full(HandleAll(Claim(s, slot, path), cqes, includeEmpty))
  {
    var c := Claim(s, slot, path);
    var t := HandleAll(c, cqes, includeEmpty);
    HandleAllPending(c, cqes, includeEmpty);
    if Full(c) {
      var k := cqes[0].userData;
      assert k < Entries && k !in t.pending;
    } else {
      var x: nat :| x < Entries && x !in c.pending;
      assert x !in t.pending;
    }
  }

  /** `Drop`: the kernel hands back at least as many completions as are
      pending, so it hands back exactly that many and the table drains to
      empty; with nothing pending it hands back nothing. */
  lemma DrainToZero(s: RingState, cqes: seq<Completion>, includeEmpty: bool)
    requires Consistent(s) && Deliverable(s.pending, cqes)
    requires |cqes| >= |s.pending|
    ensures |cqes| == |s.pending|
    ensures HandleAll(s, cqes, includeEmpty).pending == {}
  {
    HandleAllPending(s, cqes, includeEmpty);
  }

  /** The `Worker` of src/main.rs. The kernel's completions for each wait are
      the `cqes` argument of the method that waits. */
  class Worker {
    /** The `statx` output buffers; only `stx_size` is modelled. */
    var bufs: array<nat>
    /** The path each occupied slot keeps alive until its completion. */
    var paths: array<Option<Path>>
    /** Bit `i` is set while slot `i` has an operation in flight. */
    var activeMask: bv64
    /** The sizes sent to the histogram recorder, in order. */
    var recorded: seq<nat>
    /** The "failed to get metadata" messages printed, in order. */
    var errors: seq<StatxError>
    const includeEmpty: bool

    ghost function State(): RingState
      reads this, bufs, paths
    {
      RingState(Slots(activeMask), paths[..], bufs[..], recorded, errors)
    }

    ghost predicate Valid()
      reads this, bufs, paths
    {
      InRange(activeMask) && Consistent(State())
    }

    /** Between two calls of `submit`: some slot is free. */
    ghost predicate Ready()
      reads this, bufs, paths
    {
      Valid() && activeMask != FullMask
    }

    /** `Worker::new`: zeroed buffers, no path kept, nothing in flight. */
    constructor (includeEmpty: bool)
      ensures Ready() && State() == Initial()
      ensures activeMask == 0 && this.includeEmpty == includeEmpty
      ensures fresh(bufs) && fresh(paths)
    {
      bufs := new nat[Entries](_ => 0);
      paths := new Option<Path>[Entries](_ => None);
      activeMask := 0;
      recorded := [];
      errors := [];
      this.includeEmpty := includeEmpty;
      CountZero(0);
    }

    /** `submit`: claim the lowest free slot for `path`, wait for one
        completion if that filled the table, and handle what came back. */
    method Submit(path: Path, cqes: seq<Completion>)
      requires Ready()
      requires Deliverable(Slots(activeMask) + {SlotOf(TrailingOnes(activeMask))}, cqes)
      requires AllOccupied(Slots(activeMask) + {SlotOf(TrailingOnes(activeMask))}) ==> |cqes| >= 1
      modifies this`activeMask, this`recorded, this`errors, bufs, paths
      ensures Ready()
      ensures old(SlotOf(TrailingOnes(activeMask))) < Entries
      ensures old(SlotOf(TrailingOnes(activeMask))) !in old(State()).pending
      ensures State() == HandleAll(Claim(old(State()), old(SlotOf(TrailingOnes(activeMask))), path),
                                   cqes, includeEmpty)
    {
      ghost var before := State();
      var bufIdx := Occupy(path);
      var isFull := activeMask == FullMask;
      FullIff(activeMask);
      var waitFor := if isFull then 1 else 0;
      assert |cqes| >= waitFor;
      HandleCompleted(cqes);
      NeverFullOnReturn(before, bufIdx, path, cqes, includeEmpty);
      FullIff(activeMask);
    }

    /** The first half of `submit`: take the lowest free slot (the mask's
        trailing ones), mark it in flight and keep `path` in it. */
    method Occupy(path: Path) returns (bufIdx: nat)
      requires Ready()
      modifies this`activeMask, paths
      ensures bufIdx == old(SlotOf(TrailingOnes(activeMask)))
      ensures bufIdx < Entries && bufIdx !in old(State()).pending
      ensures Valid() && State() == Claim(old(State()), bufIdx, path)
    {
      ghost var before := State();
      bufIdx := SlotOf(TrailingOnes(activeMask));
      LowestFree(activeMask);
      assert bufIdx < Entries;
      activeMask := SetSlot(activeMask, bufIdx);
      paths[bufIdx] := Some(path);
      assert State() == Claim(before, bufIdx, path);
    }

    /** `handle_completed`: free each completed slot, then record its size or
        report its path. Each completion lowers the number of occupied slots,
        the mask's `count_ones` (`CountSlots`), by one. */
    method HandleCompleted(cqes: seq<Completion>)
      requires Valid() && Deliverable(Slots(activeMask), cqes)
      modifies this`activeMask, this`recorded, this`errors, bufs
      ensures Valid()
      ensures State() == HandleAll(old(State()), cqes, includeEmpty)
      ensures |Slots(activeMask)| + |cqes| == old(|Slots(activeMask)|)
    {
      ghost var goal := HandleAll(State(), cqes, includeEmpty);
      ghost var mask0 := activeMask;
      var i := 0;
      while i < |cqes|
        invariant 0 <= i <= |cqes|
        invariant Valid()
        invariant Deliverable(Slots(activeMask), cqes[i..])
        invariant HandleAll(State(), cqes[i..], includeEmpty) == goal
        invariant |Slots(activeMask)| + i == |Slots(mask0)|
      {
        Complete(cqes[i]);
        assert cqes[i..][1..] == cqes[i + 1..];
        i := i + 1;
      }
    }

    /** One iteration of `handle_completed`. */
    method Complete(cqe: Completion)
      requires Valid() && cqe.userData in Slots(activeMask)
      modifies this`activeMask, this`recorded, this`errors, bufs
      ensures Valid()
      ensures State() == HandleOne(old(State()), cqe, includeEmpty)
    {
      var bufIdx := cqe.userData;
      assert bufIdx < Entries;
      activeMask := ClearSlot(activeMask, bufIdx);
      if cqe.result == 0 {
        Record(bufIdx, cqe.size);
      } else {
        Report(bufIdx, -cqe.result);
      }
    }

    /** The success branch: the kernel's write into the slot's buffer, seen
        with the completion, then the size is recorded under the include-empty rule. */
    method Record(bufIdx: nat, size: nat)
      requires Valid() && bufIdx < Entries
      modifies this`recorded, bufs
      ensures Valid()
      ensures State() == old(State()).(bufs := old(State()).bufs[bufIdx := size],
        recorded := if includeEmpty || size != 0 then old(recorded) + [size] else old(recorded))
    {
      bufs[bufIdx] := size;
      var stxSize := bufs[bufIdx];
      if includeEmpty || stxSize != 0 {
        recorded := recorded + [stxSize];
      }
    }

    /** The failure branch: report the slot's path with the errno. */
    method Report(bufIdx: nat, errno: int)
      requires Valid() && bufIdx < Entries && paths[bufIdx].Some?
      modifies this`errors
      ensures Valid()
      ensures State() == old(State()).(errors := old(errors) + [StatxError(paths[bufIdx].value, errno)])
    {
      errors := errors + [StatxError(paths[bufIdx].value, errno)];
    }

    /** `Drop`: wait for every operation still in flight, handle them, and
        check that the table is empty. */
    method Drop(cqes: seq<Completion>)
      requires Valid() && Deliverable(Slots(activeMask), cqes)
      requires |cqes| >= CountOnes(activeMask)
      modifies this`activeMask, this`recorded, this`errors, bufs
      ensures activeMask == 0
      ensures State() == HandleAll(old(State()), cqes, includeEmpty)
    {
      ghost var before := State();
      var ongoing := CountOnes(activeMask);
      CountSlots(activeMask);
      DrainToZero(before, cqes, includeEmpty);
      if ongoing > 0 {
        HandleCompleted(cqes);
      }
      CountZero(activeMask);
      assert activeMask == 0;
    }
  }
}
