/** Runs of the public mapping calls under both aarch64 roots, against one partial map per root. */
module Stage1Runs {
  import opened Radix
  import opened Paging
  import opened Stage1
  import opened Stage1Tables

  ghost function RunAll(a: Arm, cs: seq<ArmCall>): Arm
    decreases |cs|
  {
    if cs == [] then a else RunAll(Called(a, cs[0]).a, cs[1..])
  }

  ghost function Succeeded(a: Arm, cs: seq<ArmCall>): (oks: seq<bool>)
    ensures |oks| == |cs|
    decreases |cs|
  {
    if cs == [] then [] else [Called(a, cs[0]).res.Fine?] + Succeeded(Called(a, cs[0]).a, cs[1..])
  }

  /** The call is for page `p` of one root. */
  predicate Hits(c: ArmCall, high: bool, p: Page) {
    TargetOf(c).Fine? && TargetOf(c).value.high == high && PageOf(c.va) == p
  }

  /** One cell of the partial map of one root, written by the successful calls on it. */
  ghost function PageCell(found: Found<Desc>, high: bool, p: Page, cs: seq<ArmCall>, oks: seq<bool>): Found<Desc>
    requires |oks| == |cs|
    decreases |cs|
  {
    if cs == [] then found
    else
      var next := if oks[0] && Hits(cs[0], high, p) then Small(TargetOf(cs[0]).value.leaf) else found;
      PageCell(next, high, p, cs[1..], oks[1..])
  }

  lemma CallOnCell(a: Arm, c: ArmCall, high: bool, p: Page)
    requires Healthy(a)
    ensures Healthy(Called(a, c).a)
    ensures Seen(Called(a, c).a, high, p)
         == if Called(a, c).res.Fine? && Hits(c, high, p) then Small(TargetOf(c).value.leaf) else Seen(a, high, p)
    ensures Called(a, c).res.Fine? && Hits(c, high, p) ==> Seen(a, high, p) == Missing
  {
    CalledHealthy(a, c);
    CalledOutcome(a, c);
  }

  /** Every run of calls, with any arguments, is a run of two partial maps, keeps one parent per
      pool table and never shows a page that is writable and executable. */
  lemma {:induction false} ArmRunRefines(a: Arm, cs: seq<ArmCall>, high: bool, p: Page)
    requires Healthy(a)
    ensures Healthy(RunAll(a, cs))
    ensures Seen(RunAll(a, cs), high, p) == PageCell(Seen(a, high, p), high, p, cs, Succeeded(a, cs))
    decreases |cs|
  {
    if cs != [] {
      CallOnCell(a, cs[0], high, p);
      ArmRunRefines(Called(a, cs[0]).a, cs[1..], high, p);
    }
  }

  /** A page once mapped reads the same after any run. */
  lemma {:induction false} MappedForGood(a: Arm, cs: seq<ArmCall>, high: bool, p: Page)
    requires Healthy(a) && Seen(a, high, p) != Missing
    ensures Seen(RunAll(a, cs), high, p) == Seen(a, high, p)
    decreases |cs|
  {
    if cs != [] {
      CallOnCell(a, cs[0], high, p);
      MappedForGood(Called(a, cs[0]).a, cs[1..], high, p);
    }
  }

  lemma RefusedOnce(a: Arm, c: ArmCall, high: bool, p: Page)
    requires Healthy(a) && Seen(a, high, p) != Missing
    ensures Healthy(Called(a, c).a) && Seen(Called(a, c).a, high, p) != Missing
    ensures Hits(c, high, p) ==> !Called(a, c).res.Fine?
  {
    CallOnCell(a, c, high, p);
  }

  lemma SucceededLater(a: Arm, next: Arm, cs: seq<ArmCall>, k: nat)
    requires 0 < k < |cs| && next == Called(a, cs[0]).a
    ensures Succeeded(a, cs)[k] == Succeeded(next, cs[1..])[k - 1]
  {
  }

  /** And every later call for it is refused. */
  lemma {:induction false} NeverRemapped(a: Arm, cs: seq<ArmCall>, high: bool, p: Page, k: nat)
    requires Healthy(a) && Seen(a, high, p) != Missing && k < |cs| && Hits(cs[k], high, p)
    ensures !Succeeded(a, cs)[k]
    decreases |cs|
  {
    RefusedOnce(a, cs[0], high, p);
    if k > 0 {
      var next := Called(a, cs[0]).a;
      NeverRemapped(next, cs[1..], high, p, k - 1);
      SucceededLater(a, next, cs, k);
    }
  }

  lemma UserCallLow(a: Arm, c: ArmCall, p: Page)
    requires Healthy(a) && c.UserCall?
    ensures Healthy(Called(a, c).a) && Seen(Called(a, c).a, true, p) == Seen(a, true, p)
  {
    CallOnCell(a, c, true, p);
  }

  /** User calls leave the kernel's root alone, whatever their arguments. */
  lemma {:induction false} UserRunsStayLow(a: Arm, cs: seq<ArmCall>, p: Page)
    requires Healthy(a) && forall k | 0 <= k < |cs| :: cs[k].UserCall?
    ensures Seen(RunAll(a, cs), true, p) == Seen(a, true, p)
    decreases |cs|
  {
    if cs != [] {
      UserCallLow(a, cs[0], p);
      UserRunsStayLow(Called(a, cs[0]).a, cs[1..], p);
    }
  }
}
