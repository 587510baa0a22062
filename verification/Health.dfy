/**
 * The health evaluator of one entropy source: repetition count and adaptive
 * proportion tests (sections 4.4.1 and 4.4.2 of NIST SP 800-90B) in constant
 * space, against predicates over the whole sample history.
 */
module Health {
  import opened Words

  const WINDOW: nat := 1024
  const RCT_CUTOFF: nat := 41
  const APT_CUTOFF: nat := 793
  const REENTRY: nat := 16

  datatype Verdict = Pass | Fail | NeedMoreData

  // ---------------------------------------------------------------------
  // Over the history
  // ---------------------------------------------------------------------

  /** Length of the run of equal samples that ends the history. */
  ghost function RunLength(h: seq<byte>): (n: nat)
    ensures n <= |h|
  {
    if h == [] then 0
    else if |h| > 1 && h[|h| - 2] == h[|h| - 1] then RunLength(h[..|h| - 1]) + 1
    else 1
  }

  ghost predicate Repeats(h: seq<byte>) {
    RunLength(h) >= RCT_CUTOFF
  }

  /** The samples that did not fail the repetition test when they arrived. */
  ghost function Kept(h: seq<byte>): seq<byte> {
    if h == [] then []
    else if Repeats(h) then Kept(h[..|h| - 1])
    else Kept(h[..|h| - 1]) + [h[|h| - 1]]
  }

  ghost function Occurrences(s: seq<byte>, x: byte): (n: nat)
    ensures n <= |s|
  {
    if s == [] then 0 else Occurrences(s[..|s| - 1], x) + if s[|s| - 1] == x then 1 else 0
  }

  /** The last sample completes a window of kept samples. */
  ghost predicate Closes(h: seq<byte>) {
    h != [] && !Repeats(h) && |Kept(h)| % WINDOW == 0
  }

  ghost predicate Proportion(h: seq<byte>) {
    && Closes(h)
    && |Kept(h)| >= WINDOW
    && var w := Kept(h)[|Kept(h)| - WINDOW..];
       Occurrences(w, w[0]) >= APT_CUTOFF
  }

  ghost predicate Fails(h: seq<byte>) {
    Repeats(h) || Proportion(h)
  }

  ghost function VerdictOf(h: seq<byte>): Verdict {
    if Fails(h) then Fail else if Closes(h) then Pass else NeedMoreData
  }

  /** A failure occurred within the last `k` samples. */
  ghost predicate FailedWithin(h: seq<byte>, k: nat) {
    exists j | 0 <= j < |h| && |h| <= j + k :: FailedAt(h, j)
  }

  ghost predicate FailedAt(h: seq<byte>, j: nat)
    requires j < |h|
  {
    Fails(h[..j + 1])
  }

  /** A run of at least `k` means the last `k` samples are the same. */
  lemma {:induction false} RunMeans(h: seq<byte>, k: nat)
    requires k > 0
    ensures RunLength(h) >= k <==> |h| >= k && forall i | |h| - k <= i < |h| :: h[i] == h[|h| - 1]
    decreases |h|
  {
    if h != [] && k > 1 {
      var n := |h| - 1;
      RunMeans(h[..n], k - 1);
      if n > 0 && h[n - 1] == h[n] {
        assert h[..n][n - 1] == h[n];
        assert forall i | 0 <= i < n :: h[..n][i] == h[i];
      } else if |h| >= k {
        assert h[n - 1] != h[n];
      }
    }
  }

  // ---------------------------------------------------------------------
  // The evaluator
  // ---------------------------------------------------------------------

  function Saturating(n: nat): (m: nat)
    ensures m < U32_LIMIT
    ensures m <= n
    ensures n < U32_LIMIT ==> m == n
  {
    if n < U32_LIMIT then n else U32_LIMIT - 1
  }

  /** Samples since the last failure, and whether there was one. */
  ghost function Clean(h: seq<byte>): (n: nat)
    ensures n <= |h|
  {
    if h == [] || Fails(h) then 0 else Clean(h[..|h| - 1]) + 1
  }

  ghost predicate EverFailed(h: seq<byte>) {
    h != [] && (Fails(h) || EverFailed(h[..|h| - 1]))
  }

  lemma FailedAtFront(h: seq<byte>, n: nat, j: nat)
    requires j < n <= |h|
    ensures FailedAt(h[..n], j) <==> FailedAt(h, j)
  {
    assert h[..n][..j + 1] == h[..j + 1];
  }

  /** A failure among the samples before the last is still one. */
  lemma WithinStays(h: seq<byte>, n: nat, k: nat)
    requires n + 1 == |h| && FailedWithin(h[..n], k)
    ensures FailedWithin(h, k + 1)
  {
    var j :| 0 <= j < n && n <= j + k && FailedAt(h[..n], j);
    FailedAtFront(h, n, j);
  }

  /** If the last sample did not fail, an earlier one did. */
  lemma WithinFront(h: seq<byte>, n: nat, k: nat)
    requires n + 1 == |h| && !FailedAt(h, n) && FailedWithin(h, k + 1)
    ensures FailedWithin(h[..n], k)
  {
    var j :| 0 <= j < |h| && |h| <= j + (k + 1) && FailedAt(h, j);
    FailedAtFront(h, n, j);
  }

  lemma {:induction false} RecentMeans(h: seq<byte>, k: nat)
    ensures EverFailed(h) && Clean(h) < k <==> FailedWithin(h, k)
    decreases |h|
  {
    if h != [] && k > 0 {
      var n := |h| - 1;
      assert h[..n + 1] == h;
      if Fails(h) {
        assert FailedAt(h, n);
      } else {
        RecentMeans(h[..n], k - 1);
        if FailedWithin(h[..n], k - 1) {
          WithinStays(h, n, k - 1);
        } else if FailedWithin(h, k) {
          WithinFront(h, n, k - 1);
          assert false;
        }
      }
    }
  }

  /** The open part of the window. */
  ghost function Part(kept: seq<byte>): (p: seq<byte>)
    ensures |p| == |kept| % WINDOW
  {
    kept[|kept| - |kept| % WINDOW..]
  }

  ghost predicate WindowFits(part: seq<byte>, filled: nat, initial: byte, observed: nat) {
    && filled == |part|
    && (part != [] ==> initial == part[0] && observed == Occurrences(part, initial))
  }

  lemma PartNext(kept: seq<byte>, x: byte)
    ensures |Part(kept)| + 1 < WINDOW ==> Part(kept + [x]) == Part(kept) + [x]
    ensures |Part(kept)| + 1 == WINDOW ==>
      Part(kept + [x]) == [] && |kept + [x]| >= WINDOW && (kept + [x])[|kept + [x]| - WINDOW..] == Part(kept) + [x]
  {
  }

  lemma OccurrencesNext(s: seq<byte>, y: byte, x: byte)
    ensures Occurrences(s + [y], x) == Occurrences(s, x) + if y == x then 1 else 0
  {
    assert (s + [y])[..|s|] == s;
  }

  /** The evaluator's fields. */
  datatype Fields = Fields(last: byte, run: nat, filled: nat, observed: nat, initial: byte, passes: nat, disabled: bool)

  /** The fields say of the history exactly what later verdicts need. */
  ghost predicate Fits(f: Fields, h: seq<byte>) {
    && f.last == (if h == [] then 0 else h[|h| - 1])
    && f.run == Saturating(RunLength(h))
    && WindowFits(Part(Kept(h)), f.filled, f.initial, f.observed)
    && f.passes == Saturating(Clean(h))
    && (f.disabled <==> EverFailed(h) && Clean(h) < REENTRY)
  }

  function Repetition(f: Fields, x: byte): Fields {
    if x == f.last then f.(run := Saturating(f.run + 1)) else f.(run := 1, last := x)
  }

  function Readmitted(f: Fields): Fields {
    var g := f.(passes := Saturating(f.passes + 1));
    if g.disabled && g.passes >= REENTRY then g.(disabled := false) else g
  }

  function Windowed(f: Fields, x: byte): Fields {
    f.(initial := if f.filled == 0 then x else f.initial,
       observed := if f.filled == 0 then 1 else if x == f.initial then Saturating(f.observed + 1) else f.observed,
       filled := f.filled + 1)
  }

  /** One sample through the evaluator. */
  function Checked(f: Fields, x: byte): (Fields, Verdict) {
    var r := Repetition(f, x);
    if x == f.last && r.run >= RCT_CUTOFF then (r.(disabled := true, passes := 0), Fail)
    else
      var w := Windowed(Readmitted(r), x);
      if w.filled < WINDOW then (w, NeedMoreData)
      else
        var z := w.(filled := 0, observed := 0);
        if w.observed >= APT_CUTOFF then (z.(disabled := true, passes := 0), Fail) else (z, Pass)
  }

  lemma RunNext(h: seq<byte>, x: byte)
    ensures RunLength(h + [x]) == if h != [] && h[|h| - 1] == x then RunLength(h) + 1 else 1
  {
    assert (h + [x])[..|h|] == h;
  }

  lemma KeptNext(h: seq<byte>, x: byte)
    ensures Kept(h + [x]) == if Repeats(h + [x]) then Kept(h) else Kept(h) + [x]
  {
    assert (h + [x])[..|h|] == h;
  }

  lemma CleanNext(h: seq<byte>, x: byte)
    ensures Clean(h + [x]) == if Fails(h + [x]) then 0 else Clean(h) + 1
    ensures EverFailed(h + [x]) <==> Fails(h + [x]) || EverFailed(h)
  {
    assert (h + [x])[..|h|] == h;
  }

  /** The saturated run decides the repetition test. */
  lemma RepetitionFits(f: Fields, h: seq<byte>, x: byte)
    requires f.last == (if h == [] then 0 else h[|h| - 1]) && f.run == Saturating(RunLength(h))
    ensures var r := Repetition(f, x);
      && r.last == x && r.run == Saturating(RunLength(h + [x]))
      && (Repeats(h + [x]) <==> x == f.last && r.run >= RCT_CUTOFF)
  {
    RunNext(h, x);
  }

  lemma WindowNext(kept: seq<byte>, f: Fields, x: byte)
    requires WindowFits(Part(kept), f.filled, f.initial, f.observed)
    ensures var w := Windowed(f, x);
      var part := Part(kept) + [x];
      w.filled == |part| && w.initial == part[0] && w.observed == Occurrences(part, part[0])
  {
    var part := Part(kept) + [x];
    OccurrencesNext(Part(kept), x, part[0]);
    if Part(kept) != [] {
      assert part[0] == Part(kept)[0];
    }
  }

  /** With the sample kept, the window fields decide the proportion test. */
  lemma WindowedFits(f: Fields, h: seq<byte>, x: byte)
    requires WindowFits(Part(Kept(h)), f.filled, f.initial, f.observed) && !Repeats(h + [x])
    ensures var w := Windowed(f, x);
      && (w.filled < WINDOW <==> !Closes(h + [x]))
      && (w.filled < WINDOW ==> WindowFits(Part(Kept(h + [x])), w.filled, w.initial, w.observed))
      && (w.filled == WINDOW ==> Part(Kept(h + [x])) == [] && (Proportion(h + [x]) <==> w.observed >= APT_CUTOFF))
      && w.filled <= WINDOW
  {
    WindowNext(Kept(h), f, x);
    PartNext(Kept(h), x);
    KeptNext(h, x);
  }

  lemma CheckedFits(f: Fields, h: seq<byte>, x: byte)
    requires Fits(f, h)
    ensures Fits(Checked(f, x).0, h + [x]) && Checked(f, x).1 == VerdictOf(h + [x])
  {
    RepetitionFits(f, h, x);
    CleanNext(h, x);
    KeptNext(h, x);
    if !Repeats(h + [x]) {
      WindowedFits(Readmitted(Repetition(f, x)), h, x);
    }
  }

  lemma NothingSeen(none: seq<byte>)
    requires none == []
    ensures RunLength(none) == 0 && Clean(none) == 0 && !EverFailed(none) && |Part(Kept(none))| == 0
  {
  }

  lemma StartFits(f: Fields, none: seq<byte>)
    requires none == [] && f == Fields(0, 0, 0, 0, 0, 0, false)
    ensures Fits(f, none)
  {
    NothingSeen(none);
  }

  class StreamHealth {
    var rctLast: byte
    var rctCount: nat
    var filled: nat
    var observed: nat
    var initial: byte
    var passes: nat
    var disabled: bool
    ghost var seen: seq<byte>

    ghost function Value(): Fields
      reads this
    {
      Fields(rctLast, rctCount, filled, observed, initial, passes, disabled)
    }

    ghost predicate Valid()
      reads this
    {
      Fits(Value(), seen)
    }

    constructor ()
      ensures Valid() && seen == []
    {
      rctLast, rctCount, filled, observed, initial, passes, disabled, seen := 0, 0, 0, 0, 0, 0, false, [];
      new;
      StartFits(Value(), seen);
    }

    method IsDisabled() returns (r: bool)
      requires Valid()
      ensures r <==> FailedWithin(seen, REENTRY)
    {
      RecentMeans(seen, REENTRY);
      r := disabled;
    }

    method Check(sample: byte) returns (v: Verdict)
      requires Valid()
      modifies this
      ensures Valid() && seen == old(seen) + [sample] && v == VerdictOf(seen)
    {
      v := Evaluate(sample);
      CheckedFits(old(Value()), old(seen), sample);
      seen := seen + [sample];
    }

    method Evaluate(sample: byte) returns (v: Verdict)
      modifies this
      ensures (Value(), v) == Checked(old(Value()), sample) && seen == old(seen)
    {
      if sample == rctLast {
        rctCount := Saturating(rctCount + 1);
        if rctCount >= RCT_CUTOFF {
          disabled, passes := true, 0;
          return Fail;
        }
      } else {
        rctCount, rctLast := 1, sample;
      }
      passes := Saturating(passes + 1);
      if disabled && passes >= REENTRY {
        disabled := false;
      }
      if filled == 0 {
        initial, observed := sample, 1;
      } else if sample == initial {
        observed := Saturating(observed + 1);
      }
      filled := filled + 1;
      if filled < WINDOW {
        return NeedMoreData;
      }
      var counted := observed;
      filled, observed := 0, 0;
      if counted >= APT_CUTOFF {
        disabled, passes := true, 0;
        return Fail;
      }
      v := Pass;
    }
  }
}
