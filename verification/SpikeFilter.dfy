/**
 The spike filter on position feedback (pru_read in remora-eth-3.0.c, spi_read in remora-spi.c): a sample far from
 the held count is rejected, but not more than twice in a row.
 */
module SpikeFilter {
  const N: nat := 2
  const M: int := 250

  /** 32-bit two's complement subtraction. */
  function Diff32(x: int, y: int): (r: int) {
    (x - y + 0x8000_0000) % 0x1_0000_0000 - 0x8000_0000
  }

  /** The most negative number has no absolute value and so counts as near. */
  predicate Far(x: int, y: int) {
    var d := Diff32(x, y);
    (if d < 0 && d != -0x8000_0000 then -d else d) > M
  }

  /** Short of an overflow, far is more than 250 away. */
  lemma FarMeans(x: int, y: int)
    requires -0x8000_0000 < x - y < 0x8000_0000
    ensures Far(x, y) <==> x - y > 250 || y - x > 250
  {
  }

  /** The held count and the number of samples rejected since one was accepted. */
  datatype Filter = Filter(count: int, rejected: nat)

  predicate Rejects(f: Filter, x: int) {
    Far(x, f.count) && f.rejected < N
  }

  function Step(f: Filter, x: int): (r: Filter) {
    if Rejects(f, x) then f.(rejected := f.rejected + 1) else Filter(x, 0)
  }

  function Run(f: Filter, xs: seq<int>): (r: Filter) {
    if xs == [] then f else Step(Run(f, xs[..|xs| - 1]), xs[|xs| - 1])
  }

  lemma {:induction false} RunConcat(f: Filter, xs: seq<int>, ys: seq<int>)
    ensures Run(f, xs + ys) == Run(Run(f, xs), ys)
  {
    if ys == [] {
      assert xs + ys == xs;
    } else {
      var n := |ys| - 1;
      assert (xs + ys)[..|xs| + n] == xs + ys[..n];
      RunConcat(f, xs, ys[..n]);
    }
  }

  /** A count is near itself. */
  lemma NearSelf(x: int)
    ensures !Far(x, x)
  {
  }

  /**
   Short glitches vanish: one or two samples far from the held count, before a sample near it, leave no trace in
   the filter or in anything it puts out from then on.
   */
  lemma GlitchRemoved(f: Filter, glitch: seq<int>, x: int, rest: seq<int>)
    requires f.rejected == 0 && |glitch| <= N && (forall i :: 0 <= i < |glitch| ==> Far(glitch[i], f.count))
    requires !Far(x, f.count)
    ensures Run(f, glitch + [x] + rest) == Run(f, [x] + rest)
  {
    GlitchHeld(f, glitch);
    RunConcat(f, glitch, [x]);
    RunConcat(f, glitch + [x], rest);
    RunConcat(f, [x], rest);
    RunOne(f, x);
    RunOne(Run(f, glitch), x);
  }

  lemma RunOne(f: Filter, x: int)
    ensures Run(f, [x]) == Step(f, x)
  {
    assert Run(f, []) == f;
  }

  lemma {:induction false} GlitchHeld(f: Filter, glitch: seq<int>)
    requires f.rejected == 0 && |glitch| <= N && (forall i :: 0 <= i < |glitch| ==> Far(glitch[i], f.count))
    ensures Run(f, glitch) == Filter(f.count, |glitch|)
  {
    if glitch != [] {
      GlitchHeld(f, glitch[..|glitch| - 1]);
    }
  }

  /** A near sample becomes the output at once, over every run. */
  lemma NearIsTaken(f: Filter, xs: seq<int>, x: int)
    requires !Far(x, Run(f, xs).count)
    ensures Run(f, xs + [x]) == Filter(x, 0)
  {
    assert (xs + [x])[..|xs|] == xs;
  }

  /** A far sample changes nothing but the number rejected, and the third in a row is taken. */
  lemma FarIsCounted(f: Filter, xs: seq<int>, x: int)
    requires Far(x, Run(f, xs).count)
    ensures var g := Run(f, xs);
            Run(f, xs + [x]) == if g.rejected < 2 then Filter(g.count, g.rejected + 1) else Filter(x, 0)
  {
    assert (xs + [x])[..|xs|] == xs;
  }

  /** A third far sample in a row passes. */
  lemma ThirdPasses(f: Filter, xs: seq<int>)
    requires f.rejected == 0 && |xs| == N + 1 && (forall i :: 0 <= i < |xs| ==> Far(xs[i], f.count))
    ensures Run(f, xs) == Filter(xs[N], 0)
  {
    GlitchHeld(f, xs[..N]);
  }

  predicate Accepted(f: Filter, xs: seq<int>, i: nat)
    requires i < |xs|
  {
    !Rejects(Run(f, xs[..i]), xs[i])
  }

  /** Rejections counted are rejections made: the last `rejected` samples were rejected and the count was held. */
  lemma {:induction false} RejectionsAreRecent(f: Filter, xs: seq<int>, j: nat)
    requires f.rejected == 0 && j < Run(f, xs).rejected
    ensures j < |xs| && !Accepted(f, xs, |xs| - 1 - j)
    ensures Run(f, xs[..|xs| - 1 - j]).count == Run(f, xs).count
  {
    if xs != [] {
      var n := |xs| - 1;
      if j > 0 {
        RejectionsAreRecent(f, xs[..n], j - 1);
        assert xs[..n][..n - j] == xs[..n - j];
      }
    }
  }

  /** Of any three samples in a row at least one is accepted. */
  lemma OneInThree(f: Filter, xs: seq<int>, k: nat)
    requires f.rejected == 0 && k + 3 <= |xs|
    ensures Accepted(f, xs, k) || Accepted(f, xs, k + 1) || Accepted(f, xs, k + 2)
  {
    var g := Run(f, xs[..k]);
    assert xs[..k + 1][..k] == xs[..k];
    assert xs[..k + 2][..k + 1] == xs[..k + 1];
  }

  /**
   The output jumps by more than M at sample `k` only right after two samples were rejected, the count standing
   still since before them.
   */
  lemma JumpAfterTwoRejections(f: Filter, xs: seq<int>, k: nat)
    requires f.rejected == 0 && k < |xs| && Far(Run(f, xs[..k + 1]).count, Run(f, xs[..k]).count)
    ensures k >= 2 && !Accepted(f, xs, k - 1) && !Accepted(f, xs, k - 2)
    ensures Run(f, xs[..k - 2]).count == Run(f, xs[..k]).count
  {
    var g := Run(f, xs[..k]);
    assert xs[..k + 1][..k] == xs[..k];
    NearSelf(g.count);
    assert g.rejected >= 2;
    RejectionsAreRecent(f, xs[..k], 0);
    RejectionsAreRecent(f, xs[..k], 1);
    assert xs[..k][..k - 1] == xs[..k - 1] && xs[..k][..k - 2] == xs[..k - 2];
  }
}
