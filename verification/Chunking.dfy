/** Splitting a file into fixed-size blocks by a pool of workers that may finish in any
    order, each writing the checksum of its block into its own slot.
 */
module Chunking {
  import opened Options

  type Content = seq<int>
  type Checksum = nat

  /** A file to index: its content, the block size and the (abstract) checksum. */
  datatype Job = Job(file: Content, block: nat, sum: Content -> Checksum)

  /** The caller indexes empty files on its own, and the block size is a positive setting. */
  ghost predicate Splittable(job: Job)
  {
    job.file != [] && job.block > 0
  }

  datatype Chunk = Chunk(offset: nat, length: nat)

  const WORD := 0x1_0000_0000

  function Min(a: nat, b: nat): nat
  {
    if a <= b then a else b
  }

  function BlockCount(size: nat, block: nat): nat
    requires block > 0
  {
    (size + block - 1) / block
  }

  // -------------------------------------------------------------- partition

  /** Where block `i` starts. */
  function Start(i: nat, block: nat): nat
  {
    if i == 0 then 0 else Start(i - 1, block) + block
  }

  lemma {:induction false} StartMonotone(i: nat, j: nat, block: nat)
    requires i <= j
    ensures Start(i, block) <= Start(j, block)
  {
    if i < j { StartMonotone(i, j - 1, block); }
  }

  lemma {:induction false} StartIsProduct(i: nat, block: nat)
    ensures Start(i, block) == i * block
  {
    if i > 0 {
      StartIsProduct(i - 1, block);
      assert i * block == (i - 1) * block + block;
    }
  }

  lemma DivisionIsStart(x: nat, block: nat)
    requires block > 0
    ensures Start(x / block, block) <= x < Start(x / block, block) + block
  {
    StartIsProduct(x / block, block);
    assert x == x / block * block + x % block;
  }

  /** An offset inside block `i` divided by the block size is `i`. */
  lemma Quotient(x: nat, block: nat, i: nat)
    requires block > 0 && Start(i, block) <= x < Start(i, block) + block
    ensures x / block == i
  {
    var q := x / block;
    DivisionIsStart(x, block);
    if q < i {
      StartMonotone(q + 1, i, block);
    } else if q > i {
      StartMonotone(i + 1, q, block);
    }
  }

  /** The chunk at block `i`; its length is kept in 32 bits. */
  function ChunkAt(size: nat, block: nat, i: nat): Chunk
    requires Start(i, block) <= size
  {
    Chunk(Start(i, block), Min(block, size - Start(i, block)) % WORD)
  }

  /** The count is the number of block starts inside the file. */
  lemma CountIs(size: nat, block: nat, n: nat)
    requires block > 0 && size <= Start(n, block) < size + block
    ensures n == BlockCount(size, block)
  {
    Quotient(size + block - 1, block, n);
  }

  lemma CountBounds(size: nat, block: nat)
    requires block > 0
    ensures size <= Start(BlockCount(size, block), block) < size + block
  {
    DivisionIsStart(size + block - 1, block);
  }

  lemma InsideFile(size: nat, block: nat, i: nat)
    requires block > 0
    ensures i < BlockCount(size, block) <==> Start(i, block) < size
  {
    var n := BlockCount(size, block);
    CountBounds(size, block);
    if i < n {
      StartMonotone(i + 1, n, block);
    } else {
      StartMonotone(n, i, block);
    }
  }

  /** The first chunks, one for every block, in order. */
  ghost predicate ChunksOk(size: nat, block: nat, chunks: seq<Chunk>)
  {
    forall i :: 0 <= i < |chunks| ==> IsChunkAt(size, block, chunks[i], i)
  }

  ghost predicate IsChunkAt(size: nat, block: nat, chunk: Chunk, i: nat)
  {
    Start(i, block) < size && chunk == ChunkAt(size, block, i)
  }

  /** The loop that hands out the chunks. */
  method MakeChunks(size: nat, block: nat) returns (chunks: seq<Chunk>)
    requires block > 0
    ensures |chunks| == BlockCount(size, block) && ChunksOk(size, block, chunks)
  {
    chunks := [];
    var offset: nat, left: nat := 0, size;
    while left > 0
      invariant offset + left == size && ChunksOk(size, block, chunks)
      invariant offset == Min(Start(|chunks|, block), size) && Start(|chunks|, block) < size + block
    {
      var len := if left >= block then block else left;
      var chunk := Chunk(offset, len % WORD);
      assert IsChunkAt(size, block, chunk, |chunks|);
      assert Start(|chunks| + 1, block) == offset + block;
      chunks := chunks + [chunk];
      left := left - len;
      offset := offset + len;
    }
    CountIs(size, block, |chunks|);
  }

  /** The bytes of block `i`. */
  function BlockOf(file: Content, block: nat, i: nat): Content
    requires Start(i, block) <= |file|
  {
    var from := Start(i, block);
    file[from..from + Min(block, |file| - from)]
  }

  function Concat(parts: seq<Content>): Content
  {
    if parts == [] then [] else Concat(parts[..|parts| - 1]) + parts[|parts| - 1]
  }

  function Blocks(file: Content, block: nat, n: nat): (r: seq<Content>)
    requires n > 0 ==> Start(n - 1, block) <= |file|
    ensures |r| == n
  {
    if n == 0 then [] else Blocks(file, block, n - 1) + [BlockOf(file, block, n - 1)]
  }

  lemma {:induction false} BlocksConcat(file: Content, block: nat, n: nat)
    requires n > 0 ==> Start(n - 1, block) <= |file|
    ensures Concat(Blocks(file, block, n)) == file[..Min(Start(n, block), |file|)]
  {
    if n > 0 {
      BlocksConcat(file, block, n - 1);
      var all := Blocks(file, block, n);
      assert all[..n - 1] == Blocks(file, block, n - 1);
      var from, to := Start(n - 1, block), Min(Start(n, block), |file|);
      assert file[..to] == file[..from] + file[from..to];
    }
  }

  /** The blocks partition the file: laid end to end they are the file. */
  lemma Partition(file: Content, block: nat)
    requires block > 0
    ensures var n := BlockCount(|file|, block);
            && (n > 0 ==> Start(n - 1, block) < |file|)
            && Concat(Blocks(file, block, n)) == file
  {
    var n := BlockCount(|file|, block);
    CountBounds(|file|, block);
    BlocksConcat(file, block, n);
    assert file[..|file|] == file;
  }

  ghost predicate FullLength(size: nat, block: nat, i: nat)
  {
    Start(i, block) < size ==> ChunkAt(size, block, i).length == Min(block, size - Start(i, block))
  }

  /** A worker reads exactly its block, for every block, exactly when no block is too long
      for a 32-bit length. */
  lemma LengthsExact(size: nat, block: nat)
    requires size > 0 && block > 0
    ensures (forall i :: FullLength(size, block, i)) <==> Min(block, size) < WORD
  {
    if Min(block, size) >= WORD {
      assert !FullLength(size, block, 0);
    }
  }

  // -------------------------------------------------------------------- runs

  datatype Outcome = Running | Success | Failure

  datatype Finished = Finished(chunk: nat, ok: bool)

  /** `waiting` are the chunks whose worker has not finished, `queue` the finished ones in
      order of completion, of which the first `popped` have been collected. */
  datatype State = State(slots: seq<Option<Checksum>>, waiting: set<nat>, queue: seq<Finished>, popped: nat,
                         outcome: Outcome)

  datatype Event = Finish(chunk: nat, ok: bool) | Pop

  ghost function Chunks(job: Job): nat
    requires Splittable(job)
  {
    BlockCount(|job.file|, job.block)
  }

  ghost predicate Enabled(job: Job, s: State, ev: Event)
    requires Splittable(job)
  {
    match ev
    // a worker without a byte to read has no buffer, and reports success without reading
    case Finish(c, ok) => c in s.waiting && c < |s.slots| == Chunks(job) && (KeptLength(job, c) == 0 ==> ok)
    case Pop => s.outcome == Running && s.popped < |s.queue|
  }

  /** The length the worker of chunk `c` is given. */
  ghost function KeptLength(job: Job, c: nat): nat
    requires Splittable(job) && c < Chunks(job)
  {
    InsideFile(|job.file|, job.block, c);
    ChunkAt(|job.file|, job.block, c).length
  }

  /** What the worker of chunk `c` leaves in its slot; without a byte to read, nothing. */
  ghost function SlotValue(job: Job, c: nat): Option<Checksum>
    requires Splittable(job) && c < Chunks(job)
  {
    if KeptLength(job, c) == 0 then None else Some(SumOf(job, c))
  }

  /** What the worker of chunk `c` reads and sums. */
  ghost function SumOf(job: Job, c: nat): Checksum
    requires Splittable(job) && c < Chunks(job)
  {
    InsideFile(|job.file|, job.block, c);
    var chunk := ChunkAt(|job.file|, job.block, c);
    job.sum(job.file[chunk.offset..chunk.offset + chunk.length])
  }

  ghost function Apply(job: Job, s: State, ev: Event): State
    requires Splittable(job) && Enabled(job, s, ev)
  {
    match ev
    case Finish(c, ok) =>
      InsideFile(|job.file|, job.block, c);
      var idx := ChunkAt(|job.file|, job.block, c).offset / job.block;
      Quotient(Start(c, job.block), job.block, c);
      s.(slots := if ok && KeptLength(job, c) > 0 then s.slots[idx := Some(SumOf(job, c))] else s.slots,
         waiting := s.waiting - {c},
         queue := s.queue + [Finished(c, ok)])
    case Pop =>
      s.(popped := s.popped + 1,
         outcome := if !s.queue[s.popped].ok then Failure
                    else if s.popped + 1 >= Chunks(job) then Success
                    else Running)
  }

  ghost function Range(n: nat): (r: set<nat>)
    ensures |r| == n && forall c :: c in r <==> 0 <= c < n
  {
    if n == 0 then {} else Range(n - 1) + {n - 1}
  }

  ghost function Initial(job: Job): State
    requires Splittable(job)
  {
    State(seq(Chunks(job), _ => None), Range(Chunks(job)), [], 0, Running)
  }

  ghost predicate IsRun(job: Job, states: seq<State>, events: seq<Event>)
    requires Splittable(job)
  {
    && |states| == |events| + 1 && states[0] == Initial(job)
    && forall i :: 0 <= i < |events| ==> StepAt(job, states, events, i)
  }

  ghost predicate StepAt(job: Job, states: seq<State>, events: seq<Event>, i: nat)
    requires Splittable(job) && |states| == |events| + 1 && i < |events|
  {
    Enabled(job, states[i], events[i]) && states[i + 1] == Apply(job, states[i], events[i])
  }

  // --------------------------------------------------------------- invariant

  /** The slot of a chunk that finished well holds what its worker leaves there. */
  ghost predicate DoneOk(job: Job, slots: seq<Option<Checksum>>, done: Finished)
    requires Splittable(job) && |slots| == Chunks(job)
  {
    done.chunk < |slots| && (done.ok ==> slots[done.chunk] == SlotValue(job, done.chunk))
  }

  ghost predicate SlotsInv(job: Job, s: State)
    requires Splittable(job)
  {
    |s.slots| == Chunks(job) && forall k :: 0 <= k < |s.queue| ==> DoneOk(job, s.slots, s.queue[k])
  }

  /** The slot of a waiting chunk is untouched. */
  ghost predicate WaitingInv(s: State)
  {
    forall c :: c in s.waiting && c < |s.slots| ==> s.slots[c] == None
  }

  /** Every chunk is waiting or finished, and finishes once. */
  ghost predicate QueueInv(job: Job, s: State)
    requires Splittable(job)
  {
    && (forall c :: c in s.waiting ==> c < Chunks(job))
    && |s.queue| + |s.waiting| == Chunks(job)
    && (forall c :: 0 <= c < Chunks(job) && c !in s.waiting ==> exists k :: 0 <= k < |s.queue| && s.queue[k].chunk == c)
  }

  ghost predicate OutcomeInv(job: Job, s: State)
    requires Splittable(job)
  {
    && s.popped <= |s.queue|
    && (s.outcome != Failure ==> forall k :: 0 <= k < s.popped ==> s.queue[k].ok)
    && (s.outcome == Success ==> s.popped >= Chunks(job))
  }

  ghost predicate Inv(job: Job, s: State)
    requires Splittable(job)
  {
    SlotsInv(job, s) && WaitingInv(s) && QueueInv(job, s) && OutcomeInv(job, s)
  }

  /** A worker that finishes changes its own slot only, and leaves its value there if all
      went well. */
  ghost predicate OneSlot(job: Job, slots: seq<Option<Checksum>>, slots': seq<Option<Checksum>>, c: nat, ok: bool)
    requires Splittable(job)
  {
    && c < |slots| == |slots'| == Chunks(job)
    && slots'[c] == (if ok then SlotValue(job, c) else slots[c])
    && forall i :: 0 <= i < |slots| && i != c ==> slots'[i] == slots[i]
  }

  lemma FinishSlots(job: Job, s: State, c: nat, ok: bool)
    requires Splittable(job) && WaitingInv(s) && Enabled(job, s, Finish(c, ok))
    ensures OneSlot(job, s.slots, Apply(job, s, Finish(c, ok)).slots, c, ok)
  {
    Quotient(Start(c, job.block), job.block, c);
  }

  lemma FinishKeeps(job: Job, slots: seq<Option<Checksum>>, slots': seq<Option<Checksum>>, c: nat, ok: bool,
                    done: Finished)
    requires Splittable(job) && OneSlot(job, slots, slots', c, ok) && DoneOk(job, slots, done)
    ensures DoneOk(job, slots', done)
  {
  }

  lemma SlotsStep(job: Job, s: State, ev: Event)
    requires Splittable(job) && SlotsInv(job, s) && WaitingInv(s) && Enabled(job, s, ev)
    ensures SlotsInv(job, Apply(job, s, ev)) && WaitingInv(Apply(job, s, ev))
  {
    if ev.Finish? {
      FinishSlots(job, s, ev.chunk, ev.ok);
      var t := Apply(job, s, ev);
      forall k | 0 <= k < |t.queue| ensures DoneOk(job, t.slots, t.queue[k]) {
        if k < |s.queue| { FinishKeeps(job, s.slots, t.slots, ev.chunk, ev.ok, s.queue[k]); }
      }
    }
  }

  lemma QueueStep(job: Job, s: State, ev: Event)
    requires Splittable(job) && QueueInv(job, s) && Enabled(job, s, ev)
    ensures QueueInv(job, Apply(job, s, ev))
  {
    var t := Apply(job, s, ev);
    forall c | 0 <= c < Chunks(job) && c !in t.waiting ensures exists k :: 0 <= k < |t.queue| && t.queue[k].chunk == c {
      if ev.Finish? && c == ev.chunk {
        assert t.queue[|s.queue|].chunk == c;
      } else {
        var k :| 0 <= k < |s.queue| && s.queue[k].chunk == c;
        assert t.queue[k].chunk == c;
      }
    }
  }

  lemma OutcomeStep(job: Job, s: State, ev: Event)
    requires Splittable(job) && OutcomeInv(job, s) && Enabled(job, s, ev)
    ensures OutcomeInv(job, Apply(job, s, ev))
  {
  }

  lemma {:induction false} RunInv(job: Job, states: seq<State>, events: seq<Event>, n: nat)
    requires Splittable(job) && IsRun(job, states, events) && n < |states|
    ensures Inv(job, states[n])
  {
    if n > 0 {
      RunInv(job, states, events, n - 1);
      assert StepAt(job, states, events, n - 1);
      SlotsStep(job, states[n - 1], events[n - 1]);
      QueueStep(job, states[n - 1], events[n - 1]);
      OutcomeStep(job, states[n - 1], events[n - 1]);
    }
  }

  lemma AllFinished(job: Job, s: State, i: nat) returns (k: nat)
    requires Splittable(job) && QueueInv(job, s) && |s.queue| >= Chunks(job) && i < Chunks(job)
    ensures k < |s.queue| && s.queue[k].chunk == i
  {
    assert s.waiting == {} && i !in s.waiting;
    k :| 0 <= k < |s.queue| && s.queue[k].chunk == i;
  }

  lemma SuccessSlot(job: Job, s: State, i: nat)
    requires Splittable(job) && Inv(job, s) && s.outcome == Success && i < Chunks(job)
    ensures s.slots[i] == SlotValue(job, i)
  {
    var k := AllFinished(job, s, i);
    assert |s.queue| == Chunks(job);
    assert s.queue[k].ok;
  }

  lemma SumOfBlock(job: Job, i: nat)
    requires Splittable(job) && Min(job.block, |job.file|) < WORD && i < Chunks(job)
    ensures Start(i, job.block) < |job.file| && SlotValue(job, i) == Some(job.sum(BlockOf(job.file, job.block, i)))
  {
    InsideFile(|job.file|, job.block, i);
    LengthsExact(|job.file|, job.block);
    assert FullLength(|job.file|, job.block, i);
  }

  /** In every run, in whatever order the workers finish: success means that every slot
      holds the checksum of its own block. */
  lemma SuccessExact(job: Job, states: seq<State>, events: seq<Event>, n: nat, i: nat)
    requires Splittable(job) && Min(job.block, |job.file|) < WORD
    requires IsRun(job, states, events) && n < |states| && states[n].outcome == Success && i < Chunks(job)
    ensures |states[n].slots| == Chunks(job) && Start(i, job.block) < |job.file|
    ensures states[n].slots[i] == Some(job.sum(BlockOf(job.file, job.block, i)))
  {
    RunInv(job, states, events, n);
    SuccessSlot(job, states[n], i);
    SumOfBlock(job, i);
  }

  /** Checksums of different contents differ. */
  ghost predicate Injective(sum: Content -> Checksum)
  {
    forall a, b :: sum(a) == sum(b) ==> a == b
  }

  /** A first block too long for a 32-bit length is not what its slot says. */
  lemma TooLong(job: Job)
    requires Splittable(job) && Injective(job.sum) && Min(job.block, |job.file|) >= WORD
    ensures Chunks(job) > 0 && Start(0, job.block) < |job.file|
    ensures SlotValue(job, 0) != Some(job.sum(BlockOf(job.file, job.block, 0)))
  {
    InsideFile(|job.file|, job.block, 0);
    var chunk := ChunkAt(|job.file|, job.block, 0);
    var part := job.file[chunk.offset..chunk.offset + chunk.length];
    assert |part| < |BlockOf(job.file, job.block, 0)|;
  }

  /** The slots of state `s` are the checksums of the blocks, in order. */
  ghost predicate SlotsRight(job: Job, s: State)
    requires Splittable(job)
  {
    |s.slots| == Chunks(job) &&
    forall i :: 0 <= i < |s.slots| ==>
      Start(i, job.block) < |job.file| && s.slots[i] == Some(job.sum(BlockOf(job.file, job.block, i)))
  }

  /** A successful run leaves the checksum of every block in its slot if and only if no
      block is too long for a 32-bit length. */
  lemma SuccessIff(job: Job, states: seq<State>, events: seq<Event>, n: nat)
    requires Splittable(job) && Injective(job.sum)
    requires IsRun(job, states, events) && n < |states| && states[n].outcome == Success
    ensures SlotsRight(job, states[n]) <==> Min(job.block, |job.file|) < WORD
  {
    RunInv(job, states, events, n);
    if Min(job.block, |job.file|) < WORD {
      forall i | 0 <= i < Chunks(job)
        ensures Start(i, job.block) < |job.file| && states[n].slots[i] == Some(job.sum(BlockOf(job.file, job.block, i)))
      {
        SuccessExact(job, states, events, n, i);
      }
    } else {
      TooLong(job);
      SuccessSlot(job, states[n], 0);
    }
  }

  /** Two successful runs of one job leave the same slots. */
  lemma OrderIrrelevant(job: Job, states: seq<State>, events: seq<Event>, n: nat,
                        others: seq<State>, otherEvents: seq<Event>, m: nat)
    requires Splittable(job)
    requires IsRun(job, states, events) && n < |states| && states[n].outcome == Success
    requires IsRun(job, others, otherEvents) && m < |others| && others[m].outcome == Success
    ensures states[n].slots == others[m].slots
  {
    RunInv(job, states, events, n);
    RunInv(job, others, otherEvents, m);
    forall i | 0 <= i < Chunks(job) ensures states[n].slots[i] == others[m].slots[i] {
      SuccessSlot(job, states[n], i);
      SuccessSlot(job, others[m], i);
    }
  }

  // ------------------------------------------------------------ a successful run

  lemma Extend(job: Job, states: seq<State>, events: seq<Event>, ev: Event)
    returns (states': seq<State>, events': seq<Event>)
    requires Splittable(job) && IsRun(job, states, events) && Enabled(job, states[|events|], ev)
    ensures IsRun(job, states', events') && |events'| == |events| + 1
    ensures states'[|events'|] == Apply(job, states[|events|], ev)
  {
    states', events' := states + [Apply(job, states[|events|], ev)], events + [ev];
    forall i | 0 <= i < |events'| ensures StepAt(job, states', events', i) {
      if i < |events| { assert StepAt(job, states, events, i); }
    }
  }

  /** The first `k` workers have finished, in order and well; `j` of them are collected. */
  ghost predicate Progressed(job: Job, s: State, k: nat, j: nat)
    requires Splittable(job)
  {
    && |s.queue| == k && (forall i :: 0 <= i < k ==> s.queue[i].ok)
    && (forall c :: k <= c < Chunks(job) ==> c in s.waiting)
    && s.popped == j && s.outcome == if j >= Chunks(job) then Success else Running
  }

  lemma {:induction false} FinishFirst(job: Job, k: nat) returns (states: seq<State>, events: seq<Event>)
    requires Splittable(job) && k <= Chunks(job)
    ensures IsRun(job, states, events) && Progressed(job, states[|events|], k, 0)
  {
    InsideFile(|job.file|, job.block, 0);
    if k == 0 {
      states, events := [Initial(job)], [];
    } else {
      states, events := FinishFirst(job, k - 1);
      RunInv(job, states, events, |events|);
      states, events := Extend(job, states, events, Finish(k - 1, true));
    }
  }

  lemma {:induction false} PopFirst(job: Job, j: nat) returns (states: seq<State>, events: seq<Event>)
    requires Splittable(job) && j <= Chunks(job)
    ensures IsRun(job, states, events) && Progressed(job, states[|events|], Chunks(job), j)
  {
    if j == 0 {
      states, events := FinishFirst(job, Chunks(job));
    } else {
      states, events := PopFirst(job, j - 1);
      states, events := Extend(job, states, events, Pop);
    }
  }

  /** Every file can be split: when no worker fails, the run succeeds. */
  lemma Succeeds(job: Job) returns (states: seq<State>, events: seq<Event>)
    requires Splittable(job)
    ensures IsRun(job, states, events) && states[|events|].outcome == Success
  {
    states, events := PopFirst(job, Chunks(job));
  }

  /** With a block too long for a 32-bit length there is a run that reports success and
      leaves a wrong slot. */
  lemma WrongSuccess(job: Job) returns (states: seq<State>, events: seq<Event>)
    requires Splittable(job) && Injective(job.sum) && Min(job.block, |job.file|) >= WORD
    ensures IsRun(job, states, events) && states[|events|].outcome == Success && !SlotsRight(job, states[|events|])
  {
    states, events := Succeeds(job);
    SuccessIff(job, states, events, |events|);
  }
}
