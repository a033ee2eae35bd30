/** Sizes of a log's files, what rotations and reopenings make of them, and their sum. */
module LogSizes {
  import opened Basics
  import opened Names
  import opened FileSystem
  import opened Rotation
  import opened Durability

  function SizeOf(fs: Fs, log: string, i: nat): nat {
    Length(ContentOf(fs, Gen(fs, log, i)))
  }

  /** Some record of `n` bytes. */
  function Bytes(n: nat): (r: Record)
    ensures |r| == n
  {
    seq(n, i => 0)
  }

  /** The live file holds `s` bytes, generations 1 to `k` hold `full` bytes each and the others none. */
  ghost predicate Filled(fs: Fs, log: string, policy: Policy, full: nat, k: nat, s: nat) {
    forall j: nat | j <= policy.keep :: SizeOf(fs, log, j) == if j == 0 then s else if j <= k then full else 0
  }

  // ---------------------------------------------------------------- rotations and reopenings

  /** A file's size after a rotation that may have failed: its own, its newer neighbour's, or none. */
  predicate SizeFrom(before: Fs, after: Fs, log: string, j: nat) {
    || SizeOf(after, log, j) == SizeOf(before, log, j) || SizeOf(after, log, j) == 0
    || (j > 0 && SizeOf(after, log, j) == SizeOf(before, log, j - 1))
  }

  lemma SlidSizes(fs: Fs, fs': Fs, log: string, top: nat, k: nat, j: nat)
    requires Slid(fs, fs', log, top, k)
    ensures SizeFrom(fs, fs', log, j)
    ensures j == 0 < k ==> SizeOf(fs', log, 0) == SizeOf(fs, log, 0)
    ensures k == 0 ==> SizeOf(fs', log, 0) == 0
  {
    hide GenName;
    LengthOfNothing();
    assert Gen(fs', log, j) == SlidGen(fs, log, top, k, j);
    assert Gen(fs', log, 0) == SlidGen(fs, log, top, k, 0);
  }

  lemma SecuredSizes(fs: Fs, fs': Fs, log: string, j: nat)
    requires Valid(fs) && Secured(fs, fs', log)
    ensures SizeOf(fs', log, j) == SizeOf(fs, log, j)
  {
    SecuredGens(fs, fs', log, j);
  }

  lemma SlidExactSizes(fs: Fs, fs': Fs, log: string, top: nat, j: nat)
    requires Slid(fs, fs', log, top, 0)
    ensures SizeOf(fs', log, j) == if j == 0 then 0 else if j <= top then SizeOf(fs, log, j - 1) else SizeOf(fs, log, j)
  {
    hide GenName;
    LengthOfNothing();
    assert Gen(fs', log, j) == SlidGen(fs, log, top, 0, j);
  }

  lemma SameSizes(fs: Fs, fs': Fs, log: string, j: nat)
    requires SameTree(fs, fs')
    ensures SizeOf(fs', log, j) == SizeOf(fs, log, j)
  {
  }

  lemma NoFilesNoBytes(fs: Fs, log: string, policy: Policy)
    requires NoFiles(fs, log, policy)
    ensures forall i: nat | i <= policy.keep :: SizeOf(fs, log, i) == 0
  {
    hide GenName;
    LengthOfNothing();
    forall i: nat | i <= policy.keep ensures SizeOf(fs, log, i) == 0 {
      assert Gen(fs, log, i) == None;
    }
  }

  // ---------------------------------------------------------------- sums

  lemma {:induction false} TotalAtMost(fs: Fs, log: string, n: nat, cap: nat)
    requires forall i: nat | i < n :: SizeOf(fs, log, i) <= cap
    ensures Length(Chronicle(fs, log, n)) <= n * cap
  {
    hide GenName, Length;
    LengthOfNothing();
    if n > 0 {
      TotalAtMost(fs, log, n - 1, cap);
      LengthConcat(ContentOf(fs, Gen(fs, log, n - 1)), Chronicle(fs, log, n - 1));
      assert SizeOf(fs, log, n - 1) <= cap;
      assert n * cap == (n - 1) * cap + cap;
    }
  }

  /** No file is larger than `cap`, and the log no larger than `keep + 1` times that. */
  ghost predicate AllWithin(fs: Fs, log: string, policy: Policy, cap: nat) {
    && (forall i: nat | i <= policy.keep :: SizeOf(fs, log, i) <= cap)
    && Length(Chronicle(fs, log, policy.keep + 1)) <= (policy.keep + 1) * cap
  }

  lemma AllWithinIf(fs: Fs, log: string, policy: Policy, cap: nat)
    requires forall i: nat | i <= policy.keep :: SizeOf(fs, log, i) <= cap
    ensures AllWithin(fs, log, policy, cap)
  {
    hide SizeOf, Length, Chronicle;
    TotalAtMost(fs, log, policy.keep + 1, cap);
  }

  lemma {:induction false} TotalOfFull(fs: Fs, log: string, n: nat, full: nat)
    requires forall j: nat | j < n :: SizeOf(fs, log, j) == full
    ensures Length(Chronicle(fs, log, n)) == n * full
  {
    hide GenName, Length;
    LengthOfNothing();
    if n > 0 {
      TotalOfFull(fs, log, n - 1, full);
      LengthConcat(ContentOf(fs, Gen(fs, log, n - 1)), Chronicle(fs, log, n - 1));
      assert SizeOf(fs, log, n - 1) == full;
      assert n * full == (n - 1) * full + full;
    }
  }

  lemma Larger(n: nat, a: nat, b: nat)
    requires n > 0 && a < b
    ensures n * a < n * b
  {
  }

  lemma Monotone(a: nat, b: nat, c: nat)
    requires b <= c
    ensures a * b <= a * c
  {
  }
}
