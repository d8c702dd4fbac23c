/**
 * The two progress counters of a reindex run (`completedCount` and
 * `errorCount`, each a 32-bit `AtomicInteger`) and what the workers'
 * `updateComplete` calls do to them.
 */
module Counters {

  import opened JavaInt

  /** The arguments of one `updateComplete(batchSuccessful, batchErrors)` call. */
  datatype Report = Report(successful: Int32, errors: Int32)

  /** Both counters. */
  datatype Totals = Totals(completed: Int32, errored: Int32)

  /** One `updateComplete` call: `addAndGet` on each counter, wrapping at 32 bits. */
  function Add(t: Totals, r: Report): (sum: Totals)
    ensures (t.completed + r.successful - sum.completed) % TwoTo32 == 0
    ensures (t.errored + r.errors - sum.errored) % TwoTo32 == 0
    ensures -TwoTo31 <= t.completed + r.successful < TwoTo31 ==> sum.completed == t.completed + r.successful
    ensures -TwoTo31 <= t.errored + r.errors < TwoTo31 ==> sum.errored == t.errored + r.errors
  {
    Totals(Wrap32(t.completed + r.successful), Wrap32(t.errored + r.errors))
  }

  /** The counters after the given calls, applied in order. */
  function ApplyAll(t: Totals, reports: seq<Report>): Totals
    decreases |reports|
  {
    if reports == [] then t else ApplyAll(Add(t, reports[0]), reports[1..])
  }

  /** Applying one more call after the others. */
  lemma {:induction false} ApplyAllAppend(t: Totals, reports: seq<Report>, r: Report)
    ensures ApplyAll(t, reports + [r]) == Add(ApplyAll(t, reports), r)
    decreases |reports|
  {
    if reports != [] {
      assert (reports + [r])[1..] == reports[1..] + [r];
      ApplyAllAppend(Add(t, reports[0]), reports[1..], r);
    } else {
      assert (reports + [r])[1..] == [];
    }
  }

  function SumSuccessful(reports: seq<Report>): int
  {
    if reports == [] then 0 else reports[0].successful + SumSuccessful(reports[1..])
  }

  function SumErrors(reports: seq<Report>): int
  {
    if reports == [] then 0 else reports[0].errors + SumErrors(reports[1..])
  }

  /** The counters end at their start plus the sum of all reported values, reduced to 32 bits. */
  lemma {:induction false} ApplyAllIsSum(t: Totals, reports: seq<Report>)
    ensures ApplyAll(t, reports)
      == Totals(Wrap32(t.completed + SumSuccessful(reports)), Wrap32(t.errored + SumErrors(reports)))
    decreases |reports|
  {
    if reports != [] {
      var r := reports[0];
      ApplyAllIsSum(Add(t, r), reports[1..]);
      Wrap32Add(t.completed + r.successful, SumSuccessful(reports[1..]));
      Wrap32Add(t.errored + r.errors, SumErrors(reports[1..]));
    }
  }

  /** Summing after taking out the element at `k` and adding it back gives the same sums. */
  lemma {:induction false} SumsWithout(reports: seq<Report>, k: nat)
    requires k < |reports|
    ensures SumSuccessful(reports) == reports[k].successful + SumSuccessful(reports[..k] + reports[k + 1..])
    ensures SumErrors(reports) == reports[k].errors + SumErrors(reports[..k] + reports[k + 1..])
  {
    if k > 0 {
      SumsWithout(reports[1..], k - 1);
      assert reports[1..][..k - 1] + reports[1..][k..] == (reports[..k] + reports[k + 1..])[1..];
    } else {
      assert reports[..k] + reports[k + 1..] == reports[1..];
    }
  }

  /** The sums do not depend on the order of the reports. */
  lemma {:induction false} SumsOfPermutation(reports: seq<Report>, reordered: seq<Report>)
    requires multiset(reports) == multiset(reordered)
    ensures SumSuccessful(reports) == SumSuccessful(reordered)
    ensures SumErrors(reports) == SumErrors(reordered)
    decreases |reports|
  {
    if reports != [] {
      var r := reports[0];
      assert r in multiset(reordered);
      var k :| 0 <= k < |reordered| && reordered[k] == r;
      var others := reordered[..k] + reordered[k + 1..];
      assert reordered == reordered[..k] + [r] + reordered[k + 1..];
      assert multiset(reordered) == multiset(reordered[..k]) + multiset{r} + multiset(reordered[k + 1..]);
      assert multiset(others) == multiset(reordered[..k]) + multiset(reordered[k + 1..]);
      assert reports == [r] + reports[1..];
      assert multiset(reports) == multiset{r} + multiset(reports[1..]);
      assert multiset(reports[1..]) == multiset(reports) - multiset{r};
      assert multiset(others) == multiset(reordered) - multiset{r};
      SumsOfPermutation(reports[1..], others);
      SumsWithout(reordered, k);
    }
  }

  /**
   * However the workers' calls interleave, the counters end at the same
   * values: any reordering of the same reports gives the same totals.
   */
  lemma ApplyAllOrderIndependent(t: Totals, reports: seq<Report>, reordered: seq<Report>)
    requires multiset(reports) == multiset(reordered)
    ensures ApplyAll(t, reports) == ApplyAll(t, reordered)
  {
    ApplyAllIsSum(t, reports);
    ApplyAllIsSum(t, reordered);
    SumsOfPermutation(reports, reordered);
  }

  /**
   * Without overflow the counters are exact: each ends at its start plus the
   * sum of what was reported for it.
   */
  lemma ApplyAllExact(t: Totals, reports: seq<Report>)
    requires -TwoTo31 <= t.completed + SumSuccessful(reports) < TwoTo31
    requires -TwoTo31 <= t.errored + SumErrors(reports) < TwoTo31
    ensures ApplyAll(t, reports).completed == t.completed + SumSuccessful(reports)
    ensures ApplyAll(t, reports).errored == t.errored + SumErrors(reports)
  {
    ApplyAllIsSum(t, reports);
  }
}
