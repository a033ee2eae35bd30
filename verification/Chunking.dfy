/** What the rotating writer computes when nothing fails (agent-rust/src/rotation.rs): the greedy
    division of the lines into chunks, the newest of which are the files of the log. */
module Chunking {
  import opened Basics
  import opened Names
  import opened FileSystem
  import opened Rotation
  import opened Writer
  import opened Durability
  import opened Accounting
  import opened LogSizes

  type Chunk = seq<Record>

  // ---------------------------------------------------------------- greedy chunks

  function Last(chunks: seq<Chunk>): Chunk
    requires chunks != []
  {
    chunks[|chunks| - 1]
  }

  /** Open a new chunk if the last one holds something and `r` would take it past `max`. */
  function MakeRoom(chunks: seq<Chunk>, r: Record, max: nat): (out: seq<Chunk>)
    requires chunks != []
    ensures out != []
  {
    if Length(Last(chunks)) > 0 && Length(Last(chunks)) + |r| > max then chunks + [[]] else chunks
  }

  function PutLast(chunks: seq<Chunk>, r: Record): (out: seq<Chunk>)
    requires chunks != []
    ensures out != []
  {
    chunks[|chunks| - 1 := Last(chunks) + [r]]
  }

  /** The chunks of `rs`, written one after the other to a log that starts empty. */
  function Chunks(rs: seq<Record>, max: nat): (out: seq<Chunk>)
    ensures out != []
  {
    if rs == [] then [[]]
    else PutLast(MakeRoom(Chunks(rs[..|rs| - 1], max), rs[|rs| - 1], max), rs[|rs| - 1])
  }

  function Flatten(chunks: seq<Chunk>): seq<Record> {
    if chunks == [] then [] else chunks[0] + Flatten(chunks[1..])
  }

  /** A chunk is closed only by a record that did not fit. */
  ghost predicate ClosedBy(closed: Chunk, next: Chunk, max: nat) {
    next != [] && Length(closed) > 0 && Length(closed) + |next[0]| > max
  }

  ghost predicate ClosedForCause(chunks: seq<Chunk>, max: nat) {
    forall i, j :: 0 <= i < j < |chunks| && j == i + 1 ==> ClosedBy(chunks[i], chunks[j], max)
  }

  /** A record joins a chunk only if it fits or the chunk holds no byte yet. */
  ghost predicate FitsAt(chunk: Chunk, max: nat, p: nat)
    requires p < |chunk|
  {
    Length(chunk[..p]) == 0 || Length(chunk[..p + 1]) <= max
  }

  ghost predicate Fits(chunk: Chunk, max: nat) {
    forall p: nat | 1 <= p < |chunk| :: FitsAt(chunk, max, p)
  }

  /** Greedy division, without reference to how it is computed. */
  ghost predicate IsGreedy(chunks: seq<Chunk>, max: nat) {
    ClosedForCause(chunks, max) && forall i :: 0 <= i < |chunks| ==> Fits(chunks[i], max)
  }

  lemma {:induction false} FlattenSnoc(chunks: seq<Chunk>, c: Chunk)
    ensures Flatten(chunks + [c]) == Flatten(chunks) + c
  {
    if chunks == [] {
      assert [c][1..] == [];
    } else {
      assert (chunks + [c])[1..] == chunks[1..] + [c];
      FlattenSnoc(chunks[1..], c);
    }
  }

  lemma FlattenPutLast(chunks: seq<Chunk>, r: Record)
    requires chunks != []
    ensures Flatten(PutLast(chunks, r)) == Flatten(chunks) + [r]
  {
    var init := chunks[..|chunks| - 1];
    assert chunks == init + [Last(chunks)];
    assert PutLast(chunks, r) == init + [Last(chunks) + [r]];
    FlattenSnoc(init, Last(chunks));
    FlattenSnoc(init, Last(chunks) + [r]);
  }

  lemma FitsAtPrefix(c: Chunk, r: Record, max: nat, p: nat)
    requires p < |c| && FitsAt(c, max, p)
    ensures FitsAt(c + [r], max, p)
  {
    assert (c + [r])[..p] == c[..p] && (c + [r])[..p + 1] == c[..p + 1];
  }

  lemma FitsAtEnd(c: Chunk, r: Record, max: nat)
    requires Length(c) == 0 || Length(c) + |r| <= max
    ensures FitsAt(c + [r], max, |c|)
  {
    LengthSnoc(c, r);
    hide Length;
    assert (c + [r])[..|c|] == c && (c + [r])[..|c| + 1] == c + [r];
  }

  lemma FitsSnoc(c: Chunk, r: Record, max: nat)
    requires Fits(c, max) && (Length(c) == 0 || Length(c) + |r| <= max)
    ensures Fits(c + [r], max)
  {
    FitsAtEnd(c, r, max);
    hide Length, FitsAt;
    forall p: nat | 1 <= p < |c + [r]| ensures FitsAt(c + [r], max, p) {
      if p < |c| {
        assert FitsAt(c, max, p);
        FitsAtPrefix(c, r, max, p);
      }
    }
  }

  lemma RoomIsGreedy(chunks: seq<Chunk>, r: Record, max: nat)
    requires chunks != [] && IsGreedy(chunks, max)
    ensures var room := MakeRoom(chunks, r, max); IsGreedy(PutLast(room, r), max)
  {
    hide Length;
    LengthOfNothing();
    var room := MakeRoom(chunks, r, max);
    var put := PutLast(room, r);
    if room != chunks {
      FitsSnoc([], r, max);
    } else {
      FitsSnoc(Last(chunks), r, max);
    }
    forall i | 0 <= i < |put| ensures Fits(put[i], max) {
      if i < |put| - 1 {
        assert put[i] == chunks[i];
      }
    }
  }

  lemma RoomFlattens(chunks: seq<Chunk>, r: Record, max: nat)
    requires chunks != []
    ensures Flatten(PutLast(MakeRoom(chunks, r, max), r)) == Flatten(chunks) + [r]
  {
    hide PutLast, Flatten;
    FlattenPutLast(MakeRoom(chunks, r, max), r);
    FlattenSnoc(chunks, []);
    assert Flatten(chunks) + [] == Flatten(chunks);
  }

  /** The chunks are a greedy division of the records. */
  lemma {:induction false} ChunksAreGreedy(rs: seq<Record>, max: nat)
    ensures IsGreedy(Chunks(rs, max), max)
    ensures Flatten(Chunks(rs, max)) == rs
  {
    if rs == [] {
      var one: seq<Chunk> := [[]];
      assert one[1..] == [] && Flatten(one) == [];
    } else {
      hide IsGreedy, MakeRoom, PutLast, Flatten;
      var init, r := rs[..|rs| - 1], rs[|rs| - 1];
      ChunksAreGreedy(init, max);
      RoomIsGreedy(Chunks(init, max), r, max);
      RoomFlattens(Chunks(init, max), r, max);
      assert init + [r] == rs;
    }
  }

  /** A chunk cannot be closed by a record that would have joined it elsewhere. */
  lemma NotClosedInside(c: Chunk, next: Chunk, whole: Chunk, max: nat)
    requires ClosedBy(c, next, max) && |c| < |whole|
    requires whole[..|c|] == c && whole[|c|] == next[0]
    ensures !Fits(whole, max)
  {
    var p := |c|;
    assert whole[..p + 1] == c + [next[0]];
    LengthSnoc(c, next[0]);
    LengthOfNothing();
    assert !FitsAt(whole, max, p);
  }

  lemma FirstChunkNotShorter(a: seq<Chunk>, b: seq<Chunk>, max: nat)
    requires a != [] && b != [] && IsGreedy(a, max) && IsGreedy(b, max) && Flatten(a) == Flatten(b)
    ensures |a[0]| >= |b[0]|
  {
    hide Length, Fits;
    var p := |a[0]|;
    if p < |b[0]| {
      assert a[1..] != [] && a[1..][0] == a[1];
      assert ClosedBy(a[0], a[1], max);
      FlattenTail(a);
      FlattenTail(b);
      assert Flatten(a)[p..][0] == a[1][0] == b[0][p];
      assert a[0] == Flatten(a)[..p] == b[0][..p];
      NotClosedInside(a[0], a[1], b[0], max);
    }
  }

  /** What follows the first chunk. */
  lemma FlattenTail(a: seq<Chunk>)
    requires a != []
    ensures Flatten(a)[..|a[0]|] == a[0] && Flatten(a)[|a[0]|..] == Flatten(a[1..])
  {
  }

  lemma GreedyTail(a: seq<Chunk>, max: nat)
    requires a != [] && IsGreedy(a, max)
    ensures IsGreedy(a[1..], max) && (a[1..] == [] <==> Flatten(a[1..]) == [])
  {
    hide Length, Fits;
    var t := a[1..];
    assert forall i :: 0 <= i < |t| ==> t[i] == a[i + 1];
    if t != [] {
      assert ClosedBy(a[0], a[1], max);
      FlattenTail(t);
    }
  }

  /** There is only one greedy division, so it determines the chunks. */
  lemma {:induction false} GreedyIsUnique(a: seq<Chunk>, b: seq<Chunk>, max: nat)
    requires IsGreedy(a, max) && IsGreedy(b, max) && Flatten(a) == Flatten(b)
    requires a == [] <==> b == []
    ensures a == b
  {
    if a != [] {
      FirstChunkNotShorter(a, b, max);
      FirstChunkNotShorter(b, a, max);
      GreedyTail(a, max);
      GreedyTail(b, max);
      hide IsGreedy, Flatten;
      FlattenTail(a);
      FlattenTail(b);
      GreedyIsUnique(a[1..], b[1..], max);
      assert a == [a[0]] + a[1..] && b == [b[0]] + b[1..];
    }
  }

  // ---------------------------------------------------------------- files are chunks

  /** Generation `i` is a regular file that holds `chunk`. */
  ghost predicate FileHolds(fs: Fs, log: string, i: nat, chunk: Chunk) {
    match Gen(fs, log, i)
    case None => false
    case Some(id) => id in fs.files && fs.files[id].kind.Regular? && fs.files[id].content == chunk
  }

  ghost predicate Slot(fs: Fs, log: string, chunks: seq<Chunk>, i: nat) {
    if i < |chunks| then FileHolds(fs, log, i, chunks[|chunks| - 1 - i]) else Gen(fs, log, i) == None
  }

  /** The log is its newest chunks: generation `i` is the `i`-th chunk from the end, or absent. */
  ghost predicate HoldsChunks(fs: Fs, w: Handle, chunks: seq<Chunk>) {
    && chunks != [] && Sound(fs, w) && fs.faults == []
    && w.size == Length(Last(chunks)) && Gen(fs, w.log, 0) == Some(w.file)
    && forall i: nat | i <= w.policy.keep :: Slot(fs, w.log, chunks, i)
  }

  /** A successful rotation is a slide that opens a fresh live file and touches no other inode. */
  lemma DoneSlides(fs: Fs, w: Handle, buf: Record, fs': Fs, w': Handle)
    requires Sound(fs, w) && Prepare(fs, w, buf) == (fs', w', Done)
    ensures Sound(fs', w') && w' == w.(file := w'.file, size := 0) && OnFreshFile(fs', w')
    ensures forall j: nat | j > 0 :: Gen(fs', w.log, j) == SlidGen(fs, w.log, w.policy.keep, 0, j)
    ensures forall id <- fs.files :: id in fs'.files && fs'.files[id] == fs.files[id]
  {
    RotateOutcome(fs, w.log, w.policy.keep);
    hide Rotate;
    var fs1 := Rotate(fs, w.log, w.policy.keep).0;
    assert Gen(fs1, w.log, 0) == SlidGen(fs, w.log, w.policy.keep, 0, 0);
    OpenLockedOutcome(fs1, w.log);
    hide OpenLocked;
    SecuredGens(fs1, fs', w.log, 0);
    forall j: nat | j > 0 ensures Gen(fs', w.log, j) == SlidGen(fs, w.log, w.policy.keep, 0, j) {
      SecuredGens(fs1, fs', w.log, j);
      assert Gen(fs1, w.log, j) == SlidGen(fs, w.log, w.policy.keep, 0, j);
    }
  }

  lemma PrepareMakesRoom(fs: Fs, w: Handle, chunks: seq<Chunk>, buf: Record)
    requires HoldsChunks(fs, w, chunks)
    ensures var (fs', w', _) := Prepare(fs, w, buf);
            && w'.log == w.log && w'.policy == w.policy
            && HoldsChunks(fs', w', MakeRoom(chunks, buf, w.policy.maxBytes))
  {
    hide AfterRotateNow, GenName;
    if Due(w, buf) {
      var keep := w.policy.keep;
      assert Slot(fs, w.log, chunks, keep);
      FaultFreeRotationSucceeds(fs, w, buf);
      var (fs', w', _) := Prepare(fs, w, buf);
      DoneSlides(fs, w, buf, fs', w');
      var room := chunks + [[]];
      LengthOfNothing();
      forall i: nat | i <= keep ensures Slot(fs', w.log, room, i) {
        if i > 0 {
          assert Slot(fs, w.log, chunks, i - 1);
          assert Gen(fs', w.log, i) == SlidGen(fs, w.log, keep, 0, i);
          assert i < |room| ==> room[|room| - 1 - i] == chunks[|chunks| - 1 - (i - 1)];
        }
      }
    }
  }

  /** A file of the log after an append to the live one. */
  lemma SlotAfterAppend(fs: Fs, w: Handle, chunks: seq<Chunk>, buf: Record, i: nat)
    requires Sound(fs, w) && fs.faults == [] && chunks != [] && Gen(fs, w.log, 0) == Some(w.file)
    requires Slot(fs, w.log, chunks, 0) && Slot(fs, w.log, chunks, i)
    ensures Slot(Append(fs, w.file, buf).0, w.log, PutLast(chunks, buf), i)
  {
    GenNamesDistinct(w.log);
    hide GenName;
    assert Gen(Append(fs, w.file, buf).0, w.log, i) == Gen(fs, w.log, i);
  }

  lemma AppendPutsLast(fs: Fs, w: Handle, chunks: seq<Chunk>, buf: Record)
    requires HoldsChunks(fs, w, chunks)
    ensures var (fs', r) := Append(fs, w.file, buf);
            r.Ok? && HoldsChunks(fs', w.(size := w.size + |buf|), PutLast(chunks, buf))
  {
    LengthSnoc(Last(chunks), buf);
    hide GenName, Slot, Length;
    var fs' := Append(fs, w.file, buf).0;
    forall i: nat | i <= w.policy.keep ensures Slot(fs', w.log, PutLast(chunks, buf), i) {
      assert Slot(fs, w.log, chunks, 0) && Slot(fs, w.log, chunks, i);
      SlotAfterAppend(fs, w, chunks, buf, i);
    }
  }

  lemma {:induction false} WritesHoldChunks(run: Run, bufs: seq<Record>, done: seq<Record>)
    requires HoldsChunks(run.fs, run.w, Chunks(done, run.w.policy.maxBytes))
    ensures var end := Writes(run, bufs);
            && end.w.log == run.w.log && end.w.policy == run.w.policy
            && HoldsChunks(end.fs, end.w, Chunks(done + bufs, run.w.policy.maxBytes))
    decreases |bufs|
  {
    hide Prepare, Append, HoldsChunks, MakeRoom, PutLast;
    var max := run.w.policy.maxBytes;
    if bufs == [] {
      assert done + bufs == done;
    } else {
      var buf := bufs[0];
      PrepareMakesRoom(run.fs, run.w, Chunks(done, max), buf);
      var (fs1, w1, _) := Prepare(run.fs, run.w, buf);
      AppendPutsLast(fs1, w1, MakeRoom(Chunks(done, max), buf, max), buf);
      assert (done + [buf])[..|done|] == done;
      WritesHoldChunks(Next(run, buf), bufs[1..], done + [buf]);
      assert done + [buf] + bufs[1..] == done + bufs;
    }
  }

  lemma OpenHoldsNothing(fs: Fs, log: string, policy: Policy)
    requires Valid(fs) && fs.faults == []
    requires NoFiles(fs, log, policy)
    ensures var (fs', w) := OpenHandle(fs, log, policy);
            w.Ok? && w.value.log == log && w.value.policy == policy && HoldsChunks(fs', w.value, [[]])
  {
    assert Gen(fs, log, 0) == None;
    FaultFreeReopenSucceeds(fs, log);
    OpenLockedOutcome(fs, log);
    hide OpenLocked;
    hide GenName;
    var fs1 := OpenLocked(fs, log).0;
    var (fs', w) := OpenHandle(fs, log, policy);
    forall i: nat ensures Gen(fs', log, i) == Gen(fs1, log, i)
                  ensures i > 0 ==> Gen(fs1, log, i) == Gen(fs, log, i) {
      SecuredGens(fs, fs1, log, i);
    }
    SecuredGens(fs, fs1, log, 0);
    forall i: nat | i <= policy.keep ensures Slot(fs', log, [[]], i) {
      assert Gen(fs, log, i) == None;
    }
  }

  /** When nothing fails, any sequence of writes to a log without files leaves exactly the newest
      greedy chunks: the live file is the last one, generation `i` the `i`-th before it up to
      `keep`, absent if there is none; no record straddles two files. */
  lemma FaultFreeWriterIsGreedy(fs: Fs, log: string, policy: Policy, bufs: seq<Record>)
    requires Valid(fs) && fs.faults == []
    requires NoFiles(fs, log, policy)
    ensures var (fs1, w) := OpenHandle(fs, log, policy);
            w.Ok? &&
            var end := Writes(Opened(fs1, w.value), bufs);
            end.w.log == log && end.w.policy == policy && HoldsChunks(end.fs, end.w, Chunks(bufs, policy.maxBytes))
  {
    hide OpenHandle, HoldsChunks, GenName;
    OpenHoldsNothing(fs, log, policy);
    var (fs1, w) := OpenHandle(fs, log, policy);
    WritesHoldChunks(Opened(fs1, w.value), bufs, []);
    assert [] + bufs == bufs;
  }

  // ---------------------------------------------------------------- sizes

  lemma {:induction false} FlattenCovers(chunks: seq<Chunk>, i: nat, r: Record)
    requires i < |chunks| && r in chunks[i]
    ensures r in Flatten(chunks)
  {
    if i > 0 {
      FlattenCovers(chunks[1..], i - 1, r);
    }
  }

  lemma FitsWithin(c: Chunk, max: nat, bound: nat)
    requires Fits(c, max) && max <= bound && forall r <- c :: |r| <= bound
    ensures Length(c) <= bound
  {
    if c != [] {
      var p := |c| - 1;
      assert p >= 1 ==> FitsAt(c, max, p);
      assert c[..p + 1] == c && c[p] in c;
      assert p == 0 ==> c[..p] == [];
    }
  }

  lemma ChunkWithin(chunks: seq<Chunk>, max: nat, bound: nat, i: nat)
    requires IsGreedy(chunks, max) && i < |chunks| && max <= bound
    requires forall r <- Flatten(chunks) :: |r| <= bound
    ensures Length(chunks[i]) <= bound
  {
    hide Fits, Length;
    forall r | r in chunks[i] ensures |r| <= bound {
      FlattenCovers(chunks, i, r);
    }
    FitsWithin(chunks[i], max, bound);
  }

  lemma NeighboursExceed(chunks: seq<Chunk>, max: nat, i: nat)
    requires IsGreedy(chunks, max) && 1 <= i < |chunks|
    ensures Length(chunks[i - 1]) + Length(chunks[i]) > max
  {
    hide Fits;
    assert ClosedBy(chunks[i - 1], chunks[i], max);
    var c := chunks[i];
    assert c == [c[0]] + c[1..];
    LengthConcat([c[0]], c[1..]);
    LengthSnoc([], c[0]);
    assert [] + [c[0]] == [c[0]];
  }

  /** The content of one file of the log. */
  lemma SlotContent(fs: Fs, w: Handle, chunks: seq<Chunk>, i: nat)
    requires HoldsChunks(fs, w, chunks) && i <= w.policy.keep
    ensures ContentOf(fs, Gen(fs, w.log, i)) == if i < |chunks| then chunks[|chunks| - 1 - i] else []
    ensures Gen(fs, w.log, i).Some? <==> i < |chunks|
  {
    hide GenName;
    assert Slot(fs, w.log, chunks, i);
  }

  lemma {:induction false} LogWithin(fs: Fs, w: Handle, chunks: seq<Chunk>, bound: nat, n: nat)
    requires HoldsChunks(fs, w, chunks) && IsGreedy(chunks, w.policy.maxBytes) && w.policy.maxBytes <= bound
    requires forall r <- Flatten(chunks) :: |r| <= bound
    requires n <= Files(w)
    ensures forall i: nat | i < n :: Length(ContentOf(fs, Gen(fs, w.log, i))) <= bound
    ensures Length(Chronicle(fs, w.log, n)) <= n * bound
    decreases n
  {
    hide GenName, IsGreedy, Length, Flatten, HoldsChunks;
    LengthOfNothing();
    if n > 0 {
      LogWithin(fs, w, chunks, bound, n - 1);
      SlotContent(fs, w, chunks, n - 1);
      if n <= |chunks| {
        ChunkWithin(chunks, w.policy.maxBytes, bound, |chunks| - n);
      }
      LengthConcat(ContentOf(fs, Gen(fs, w.log, n - 1)), Chronicle(fs, w.log, n - 1));
      assert n * bound == (n - 1) * bound + bound;
    }
  }

  lemma TwoFiles(fs: Fs, log: string, n: nat)
    requires n >= 2
    ensures Length(Chronicle(fs, log, n)) == Length(ContentOf(fs, Gen(fs, log, n - 1)))
                                           + Length(ContentOf(fs, Gen(fs, log, n - 2))) + Length(Chronicle(fs, log, n - 2))
  {
    hide GenName, Length;
    LengthConcat(ContentOf(fs, Gen(fs, log, n - 1)), Chronicle(fs, log, n - 1));
    LengthConcat(ContentOf(fs, Gen(fs, log, n - 2)), Chronicle(fs, log, n - 2));
  }

  lemma OneMorePair(n: nat, m: nat)
    requires n >= 2
    ensures (n / 2) * m == ((n - 2) / 2) * m + m
  {
    assert n / 2 == (n - 2) / 2 + 1;
  }

  lemma {:induction false} LogExceeds(fs: Fs, w: Handle, chunks: seq<Chunk>, n: nat)
    requires HoldsChunks(fs, w, chunks) && IsGreedy(chunks, w.policy.maxBytes)
    requires n <= Files(w) && n <= |chunks|
    ensures Length(Chronicle(fs, w.log, n)) >= (n / 2) * (w.policy.maxBytes + 1)
    decreases n
  {
    hide GenName, IsGreedy, Length, HoldsChunks, Chronicle, ContentOf;
    if n >= 2 {
      LogExceeds(fs, w, chunks, n - 2);
      SlotContent(fs, w, chunks, n - 1);
      SlotContent(fs, w, chunks, n - 2);
      NeighboursExceed(chunks, w.policy.maxBytes, |chunks| - n + 1);
      TwoFiles(fs, w.log, n);
      OneMorePair(n, w.policy.maxBytes + 1);
    }
  }

  /** Sizes when nothing fails: no file is larger than the limit or the longest line, the log is at
      most `keep + 1` times that, and once all `keep + 1` files exist it holds more than the limit
      for every two of them. */
  lemma AgentLogBounds(fs: Fs, log: string, policy: Policy, bufs: seq<Record>, bound: nat)
    requires Valid(fs) && fs.faults == []
    requires NoFiles(fs, log, policy)
    requires policy.maxBytes <= bound && forall r <- bufs :: |r| <= bound
    ensures var (fs1, w) := OpenHandle(fs, log, policy);
            w.Ok? &&
            var end := Writes(Opened(fs1, w.value), bufs);
            var total := Length(Chronicle(end.fs, log, policy.keep + 1));
            && (forall i: nat | i <= policy.keep :: Length(ContentOf(end.fs, Gen(end.fs, log, i))) <= bound)
            && total <= (policy.keep + 1) * bound
            && (Gen(end.fs, log, policy.keep).Some? ==> total >= ((policy.keep + 1) / 2) * (policy.maxBytes + 1))
  {
    hide OpenHandle, GenName, IsGreedy, Length, Chronicle, Flatten, HoldsChunks, Writes, Chunks;
    FaultFreeWriterIsGreedy(fs, log, policy, bufs);
    var (fs1, w) := OpenHandle(fs, log, policy);
    var end := Writes(Opened(fs1, w.value), bufs);
    var chunks := Chunks(bufs, policy.maxBytes);
    ChunksAreGreedy(bufs, policy.maxBytes);
    LogWithin(end.fs, end.w, chunks, bound, policy.keep + 1);
    SlotContent(end.fs, end.w, chunks, policy.keep);
    if Gen(end.fs, log, policy.keep).Some? {
      LogExceeds(end.fs, end.w, chunks, policy.keep + 1);
    }
  }

  // ---------------------------------------------------------------- the documented bound

  /** The log after the first `n` writes. */
  function AfterWrites(fs: Fs, log: string, policy: Policy, bufs: seq<Record>, n: nat): Run
    requires OpenHandle(fs, log, policy).1.Ok? && n <= |bufs|
  {
    var (fs1, w) := OpenHandle(fs, log, policy);
    Writes(Opened(fs1, w.value), bufs[..n])
  }

  /** Right after a line has been written the live file holds at least that line. */
  lemma LiveHoldsLastLine(fs: Fs, log: string, policy: Policy, bufs: seq<Record>, n: nat)
    requires Valid(fs) && fs.faults == [] && n < |bufs|
    requires NoFiles(fs, log, policy)
    ensures OpenHandle(fs, log, policy).1.Ok?
    ensures var run := AfterWrites(fs, log, policy, bufs, n + 1);
            Length(ContentOf(run.fs, Gen(run.fs, log, 0))) >= |bufs[n]|
  {
    hide OpenHandle, GenName, HoldsChunks, Writes, Length, MakeRoom;
    FaultFreeWriterIsGreedy(fs, log, policy, bufs[..n + 1]);
    var run := AfterWrites(fs, log, policy, bufs, n + 1);
    var chunks := Chunks(bufs[..n + 1], policy.maxBytes);
    SlotContent(run.fs, run.w, chunks, 0);
    assert bufs[..n + 1][..n] == bufs[..n] && bufs[..n + 1][n] == bufs[n];
    var room := MakeRoom(Chunks(bufs[..n], policy.maxBytes), bufs[n], policy.maxBytes);
    assert Last(chunks) == Last(room) + [bufs[n]];
    LengthSnoc(Last(room), bufs[n]);
  }

  /** When nothing fails, every file stays within `max_bytes` throughout a run if and only if no line of
      that run is longer than `max_bytes`. */
  lemma FilesStayWithinLimitIff(fs: Fs, log: string, policy: Policy, bufs: seq<Record>)
    requires Valid(fs) && fs.faults == []
    requires NoFiles(fs, log, policy)
    ensures OpenHandle(fs, log, policy).1.Ok?
    ensures (forall n: nat, i: nat | n <= |bufs| && i <= policy.keep ::
               var run := AfterWrites(fs, log, policy, bufs, n);
               Length(ContentOf(run.fs, Gen(run.fs, log, i))) <= policy.maxBytes)
       <==> (forall r <- bufs :: |r| <= policy.maxBytes)
  {
    hide OpenHandle, GenName, Length, Chunks, Writes;
    FaultFreeWriterIsGreedy(fs, log, policy, []);
    if forall r <- bufs :: |r| <= policy.maxBytes {
      forall n: nat, i: nat | n <= |bufs| && i <= policy.keep
        ensures var run := AfterWrites(fs, log, policy, bufs, n);
                Length(ContentOf(run.fs, Gen(run.fs, log, i))) <= policy.maxBytes {
        AgentLogBounds(fs, log, policy, bufs[..n], policy.maxBytes);
      }
    } else {
      var r :| r in bufs && |r| > policy.maxBytes;
      var n: nat :| n < |bufs| && bufs[n] == r;
      LiveHoldsLastLine(fs, log, policy, bufs, n);
      var run := AfterWrites(fs, log, policy, bufs, n + 1);
      assert Length(ContentOf(run.fs, Gen(run.fs, log, 0))) > policy.maxBytes;
    }
  }

  /** Everything the log occupies after a run of writes. */
  function TotalAfter(fs: Fs, log: string, policy: Policy, bufs: seq<Record>): nat {
    var (fs1, w) := OpenHandle(fs, log, policy);
    if w.Err? then 0 else Length(Chronicle(Writes(Opened(fs1, w.value), bufs).fs, log, policy.keep + 1))
  }

  predicate NoneLonger(bufs: seq<Record>, longest: nat) {
    forall i :: 0 <= i < |bufs| ==> |bufs[i]| <= longest
  }

  function Repeated(r: Record, n: nat): seq<Record> {
    seq(n, i => r)
  }

  function Singles(r: Record, n: nat): seq<Chunk> {
    seq(n, i => [r])
  }

  lemma {:induction false} FlattenSingles(r: Record, n: nat)
    ensures Flatten(Singles(r, n)) == Repeated(r, n)
  {
    if n > 0 {
      FlattenSingles(r, n - 1);
      assert Singles(r, n)[1..] == Singles(r, n - 1);
      assert [r] + Repeated(r, n - 1) == Repeated(r, n);
    }
  }

  /** Lines longer than the limit get a file each. */
  lemma OversizeChunks(r: Record, n: nat, max: nat)
    requires |r| > max && n > 0
    ensures Chunks(Repeated(r, n), max) == Singles(r, n)
  {
    LengthSnoc([], r);
    assert [] + [r] == [r];
    LengthOfNothing();
    assert IsGreedy(Singles(r, n), max);
    hide IsGreedy, Length, Chunks;
    FlattenSingles(r, n);
    ChunksAreGreedy(Repeated(r, n), max);
    GreedyIsUnique(Chunks(Repeated(r, n), max), Singles(r, n), max);
  }

  lemma {:induction false} LogOfSingles(fs: Fs, w: Handle, r: Record, m: nat, n: nat)
    requires HoldsChunks(fs, w, Singles(r, m)) && n <= m && n <= Files(w)
    ensures Length(Chronicle(fs, w.log, n)) == n * |r|
    decreases n
  {
    hide GenName, Length, HoldsChunks;
    LengthOfNothing();
    if n > 0 {
      LogOfSingles(fs, w, r, m, n - 1);
      SlotContent(fs, w, Singles(r, m), n - 1);
      LengthConcat(ContentOf(fs, Gen(fs, w.log, n - 1)), Chronicle(fs, w.log, n - 1));
      LengthSnoc([], r);
      assert [] + [r] == [r];
      assert n * |r| == (n - 1) * |r| + |r|;
    }
  }

  /** `keep + 1` lines of one length above the limit fill the log to `keep + 1` times that length. */
  lemma OversizeTotal(fs: Fs, log: string, policy: Policy, r: Record)
    requires Valid(fs) && fs.faults == [] && NoFiles(fs, log, policy) && |r| > policy.maxBytes
    ensures TotalAfter(fs, log, policy, Repeated(r, policy.keep + 1)) == (policy.keep + 1) * |r|
  {
    var n := policy.keep + 1;
    OversizeChunks(r, n, policy.maxBytes);
    hide OpenHandle, GenName, HoldsChunks, Writes, Length, Chunks, Chronicle;
    FaultFreeWriterIsGreedy(fs, log, policy, Repeated(r, n));
    var (fs1, w) := OpenHandle(fs, log, policy);
    var end := Writes(Opened(fs1, w.value), Repeated(r, n));
    LogOfSingles(end.fs, end.w, r, n, n);
  }

  lemma ShortLinesWithin(fs: Fs, log: string, policy: Policy, bufs: seq<Record>)
    requires Valid(fs) && fs.faults == [] && NoFiles(fs, log, policy) && NoneLonger(bufs, policy.maxBytes)
    ensures TotalAfter(fs, log, policy, bufs) <= (policy.keep + 1) * policy.maxBytes
  {
    hide OpenHandle, GenName, Length, Chronicle, Writes;
    AgentLogBounds(fs, log, policy, bufs, policy.maxBytes);
  }

  /** The documented bound. When nothing fails, a log stays within `(keep + 1) * max_bytes` in all runs
      whose lines are at most `longest` bytes if and only if `longest` is at most `max_bytes`. */
  lemma LogStaysWithinBoundIff(fs: Fs, log: string, policy: Policy, longest: nat)
    requires Valid(fs) && fs.faults == [] && NoFiles(fs, log, policy)
    ensures (forall bufs | NoneLonger(bufs, longest) :: TotalAfter(fs, log, policy, bufs) <= (policy.keep + 1) * policy.maxBytes)
       <==> longest <= policy.maxBytes
  {
    hide TotalAfter, NoFiles, Valid;
    if longest <= policy.maxBytes {
      forall bufs | NoneLonger(bufs, longest) ensures TotalAfter(fs, log, policy, bufs) <= (policy.keep + 1) * policy.maxBytes {
        ShortLinesWithin(fs, log, policy, bufs);
      }
    } else {
      var r: Record := seq(longest, i => 0);
      OversizeTotal(fs, log, policy, r);
      assert NoneLonger(Repeated(r, policy.keep + 1), longest);
      Larger(policy.keep + 1, policy.maxBytes, longest);
    }
  }
}
