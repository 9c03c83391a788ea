/** Matching current findings against baseline slots of equal or worse severity
    (crates/cli/src/baseline.rs, overflowing_severities).

    The program has three severities; everything here is for any number of them.
    `Remaining` follows the program's greedy pass; `IsAssignment` says, without
    reference to it, what matching findings to slots means. */
module SeverityMatching {
  import opened Wrappers

  /** s[k] + s[k + 1] + ... */
  function SumFrom(s: seq<nat>, k: nat): nat
    decreases |s| - k
  {
    if k >= |s| then 0 else s[k] + SumFrom(s, k + 1)
  }

  /** Take `amount` slots, lowest severity first, starting at severity `from`. */
  function TakeLowest(available: seq<nat>, from: nat, amount: nat): (r: seq<nat>)
    ensures |r| == |available|
    decreases |available| - from
  {
    if from >= |available| then available
    else
      var taken := Min(amount, available[from]);
      TakeLowest(available[from := available[from] - taken], from + 1, amount - taken)
  }

  /** The slots left after the first k severities have been matched. */
  function Remaining(current: seq<nat>, baseline: seq<nat>, k: nat): (r: seq<nat>)
    requires |current| == |baseline| && k <= |current|
    ensures |r| == |baseline|
    decreases k, 0
  {
    if k == 0 then baseline
    else TakeLowest(Remaining(current, baseline, k - 1), k - 1, Matched(current, baseline, k - 1))
  }

  /** How many findings of severity k the greedy pass matches. */
  function Matched(current: seq<nat>, baseline: seq<nat>, k: nat): nat
    requires |current| == |baseline| && k < |current|
    decreases k, 1
  {
    Min(current[k], SumFrom(Remaining(current, baseline, k), k))
  }

  /** Severity k has more findings than compatible slots. */
  predicate Overflows(current: seq<nat>, baseline: seq<nat>, k: nat)
    requires |current| == |baseline| && k < |current|
  {
    SumFrom(Remaining(current, baseline, k), k) < current[k]
  }

  method OverflowingSeverities(current: seq<nat>, baseline: seq<nat>) returns (overflow: array<bool>)
    requires |current| == |baseline|
    ensures fresh(overflow) && overflow.Length == |current|
    ensures forall k :: 0 <= k < |current| ==> overflow[k] == Overflows(current, baseline, k)
  {
    var n := |current|;
    var available := new nat[n](i requires 0 <= i < n => baseline[i]);
    overflow := new bool[n](_ => false);
    assert available[..] == baseline;
    for severity := 0 to n
      invariant available[..] == Remaining(current, baseline, severity)
      invariant forall k :: 0 <= k < severity ==> overflow[k] == Overflows(current, baseline, k)
    {
      var compatible := ComputeSumFrom(available[..], severity);
      overflow[severity] := compatible < current[severity];
      TakeLowestInPlace(available, severity, Min(current[severity], compatible));
    }
  }

  method ComputeSumFrom(s: seq<nat>, k: nat) returns (total: nat)
    requires k <= |s|
    ensures total == SumFrom(s, k)
  {
    total := 0;
    for i := k to |s|
      invariant total + SumFrom(s, i) == SumFrom(s, k)
    {
      total := total + s[i];
    }
  }

  method TakeLowestInPlace(available: array<nat>, from: nat, amount: nat)
    requires from < available.Length
    modifies available
    ensures available[..] == TakeLowest(old(available[..]), from, amount)
  {
    var matched := amount;
    var i := from;
    while i < available.Length
      invariant from <= i <= available.Length
      invariant TakeLowest(available[..], i, matched) == TakeLowest(old(available[..]), from, amount)
    {
      ghost var before := available[..];
      var taken := Min(matched, available[i]);
      available[i] := available[i] - taken;
      assert available[..] == before[i := before[i] - taken];
      matched := matched - taken;
      i := i + 1;
      if matched == 0 {
        TakeNothing(available[..], i);
        break;
      }
    }
  }

  lemma {:induction false} TakeNothing(available: seq<nat>, from: nat)
    ensures TakeLowest(available, from, 0) == available
    decreases |available| - from
  {
    if from < |available| {
      assert available[from := available[from] - 0] == available;
      TakeNothing(available, from + 1);
    }
  }

  // ----- What the greedy step does to the slots

  lemma {:induction false} SumFromUpdate(s: seq<nat>, k: nat, i: nat, v: nat)
    requires i < |s|
    ensures SumFrom(s[i := v], k) == if i < k then SumFrom(s, k) else SumFrom(s, k) - s[i] + v
    decreases |s| - k
  {
    if k < |s| {
      SumFromUpdate(s, k + 1, i, v);
    }
    SumFromEntry(s, k, i);
  }

  lemma {:induction false} SumFromEntry(s: seq<nat>, k: nat, i: nat)
    ensures k <= i < |s| ==> s[i] <= SumFrom(s, k)
    decreases |s| - k
  {
    if k < |s| {
      SumFromEntry(s, k + 1, i);
    }
  }

  lemma {:induction false} SumFromEqualTails(s: seq<nat>, t: seq<nat>, k: nat)
    requires |s| == |t| && forall j :: k <= j < |s| ==> s[j] == t[j]
    ensures SumFrom(s, k) == SumFrom(t, k)
    decreases |s| - k
  {
    if k < |s| {
      SumFromEqualTails(s, t, k + 1);
    }
  }

  /** Lowest first: a slot that survives at t protects every slot above t. */
  lemma {:induction false} TakeLowestEffect(available: seq<nat>, from: nat, amount: nat)
    requires amount <= SumFrom(available, from)
    ensures var r := TakeLowest(available, from, amount);
            && (forall j :: 0 <= j < |r| ==> r[j] <= available[j])
            && (forall j :: 0 <= j < |r| && j < from ==> r[j] == available[j])
            && (forall t, j :: from <= t < j < |r| && r[t] > 0 ==> r[j] == available[j])
            && (forall c: nat :: c <= from ==> SumFrom(r, c) == SumFrom(available, c) - amount)
    decreases |available| - from
  {
    var r := TakeLowest(available, from, amount);
    if from < |available| {
      var taken := Min(amount, available[from]);
      var next := available[from := available[from] - taken];
      SumFromUpdate(available, from + 1, from, available[from] - taken);
      TakeLowestEffect(next, from + 1, amount - taken);
      forall c: nat | c <= from
        ensures SumFrom(r, c) == SumFrom(available, c) - amount
      {
        SumFromUpdate(available, c, from, available[from] - taken);
        SumFromEntry(available, c, from);
      }
      if r[from] > 0 {
        TakeNothing(next, from + 1);
      }
    } else {
      forall c: nat | c <= from
        ensures SumFrom(r, c) == SumFrom(available, c) - amount
      {
      }
    }
  }

  // ----- Assignments of findings to slots

  function AddAll(u: seq<nat>, v: seq<nat>): seq<nat>
    requires |u| == |v|
  {
    seq(|u|, i requires 0 <= i < |u| => u[i] + v[i])
  }

  function Zeros(n: nat): seq<nat> {
    seq(n, _ => 0)
  }

  /** How many slots of each severity an assignment uses. */
  function Used(rows: seq<seq<nat>>, n: nat): (r: seq<nat>)
    requires forall row :: row in rows ==> |row| == n
    ensures |r| == n
  {
    if rows == [] then Zeros(n) else AddAll(rows[0], Used(rows[1..], n))
  }

  /** How many findings an assignment matches. */
  function Size(rows: seq<seq<nat>>): nat {
    if rows == [] then 0 else SumFrom(rows[0], 0) + Size(rows[1..])
  }

  /** rows[s][t] findings of severity s sit in slots of severity t, which is no
      lower; no severity matches more findings than it has, and no slot is used
      twice. Only the first |rows| severities take part. */
  ghost predicate IsAssignment(rows: seq<seq<nat>>, current: seq<nat>, baseline: seq<nat>)
    requires |current| == |baseline|
  {
    && |rows| <= |current|
    && (forall row :: row in rows ==> |row| == |baseline|)
    && (forall s, t :: 0 <= s < |rows| && 0 <= t < |rows[s]| && rows[s][t] > 0 ==> s <= t)
    && (forall s :: 0 <= s < |rows| ==> SumFrom(rows[s], 0) <= current[s])
    && (forall t :: 0 <= t < |baseline| ==> Used(rows, |baseline|)[t] <= baseline[t])
  }

  lemma {:induction false} SumFromAddAll(u: seq<nat>, v: seq<nat>, k: nat)
    requires |u| == |v|
    ensures SumFrom(AddAll(u, v), k) == SumFrom(u, k) + SumFrom(v, k)
    decreases |u| - k
  {
    if k < |u| {
      SumFromAddAll(u, v, k + 1);
    }
  }

  lemma {:induction false} SumFromZero(u: seq<nat>, k: nat)
    requires forall j :: k <= j < |u| ==> u[j] == 0
    ensures SumFrom(u, k) == 0
    decreases |u| - k
  {
    if k < |u| {
      SumFromZero(u, k + 1);
    }
  }

  lemma {:induction false} SumFromMonotone(u: seq<nat>, v: seq<nat>, k: nat)
    requires |u| == |v| && forall j :: k <= j < |u| ==> u[j] <= v[j]
    ensures SumFrom(u, k) <= SumFrom(v, k)
    decreases |u| - k
  {
    if k < |u| {
      SumFromMonotone(u, v, k + 1);
    }
  }

  lemma {:induction false} SumFromSkipsZeros(u: seq<nat>, k: nat, c: nat)
    requires k <= c && forall j :: k <= j < |u| && u[j] > 0 ==> c <= j
    ensures SumFrom(u, k) == SumFrom(u, c)
    decreases c - k
  {
    if k < c && k < |u| {
      SumFromSkipsZeros(u, k + 1, c);
    } else if k < c {
      SumFromZero(u, c);
    }
  }

  /** current[..k] added up. */
  function SumUpTo(s: seq<nat>, k: nat): nat
    requires k <= |s|
  {
    if k == 0 then 0 else SumUpTo(s, k - 1) + s[k - 1]
  }

  lemma {:induction false} SumSplit(s: seq<nat>, k: nat)
    requires k <= |s|
    ensures SumUpTo(s, k) + SumFrom(s, k) == SumFrom(s, 0)
  {
    if k > 0 {
      SumSplit(s, k - 1);
    }
  }

  /** Rows first..|rows| only use slots at or above `cut`, when cut <= first. */
  lemma {:induction false} HighRowsUseHighSlots(rows: seq<seq<nat>>, n: nat, first: nat, cut: nat)
    requires forall row :: row in rows ==> |row| == n
    requires forall s, t :: 0 <= s < |rows| && 0 <= t < n && rows[s][t] > 0 ==> first + s <= t
    requires cut <= first
    ensures Size(rows) == SumFrom(Used(rows, n), cut)
    decreases |rows|
  {
    if rows == [] {
      SumFromZero(Zeros(n), cut);
    } else {
      assert forall s, t :: 0 <= s < |rows[1..]| && 0 <= t < n && rows[1..][s][t] > 0 ==> first + 1 + s <= t
      by {
        forall s, t | 0 <= s < |rows[1..]| && 0 <= t < n && rows[1..][s][t] > 0
          ensures first + 1 + s <= t
        {
          assert rows[1..][s] == rows[s + 1];
        }
      }
      HighRowsUseHighSlots(rows[1..], n, first + 1, cut);
      SumFromAddAll(rows[0], Used(rows[1..], n), cut);
      assert rows[0] in rows;
      SumFromSkipsZeros(rows[0], 0, cut);
    }
  }

  lemma {:induction false} UsedSplit(rows: seq<seq<nat>>, n: nat, k: nat)
    requires forall row :: row in rows ==> |row| == n
    requires k <= |rows|
    ensures Size(rows) == Size(rows[..k]) + Size(rows[k..])
    ensures forall t :: 0 <= t < n ==> Used(rows[k..], n)[t] <= Used(rows, n)[t]
    decreases k
  {
    if k == 0 {
      assert rows[0..] == rows;
    } else {
      UsedSplit(rows[1..], n, k - 1);
      assert rows[1..][..k - 1] == rows[..k][1..] && rows[1..][k - 1..] == rows[k..];
    }
  }

  lemma {:induction false} LowRowsAreBounded(rows: seq<seq<nat>>, current: seq<nat>)
    requires |rows| <= |current|
    requires forall s :: 0 <= s < |rows| ==> SumFrom(rows[s], 0) <= current[s]
    ensures Size(rows) <= SumUpTo(current, |rows|)
    decreases |rows|
  {
    if rows != [] {
      var k := |rows| - 1;
      LowRowsAreBounded(rows[..k], current);
      SizeOfLast(rows);
    }
  }

  lemma {:induction false} SizeOfLast(rows: seq<seq<nat>>)
    requires rows != []
    ensures Size(rows) == Size(rows[..|rows| - 1]) + SumFrom(rows[|rows| - 1], 0)
    decreases |rows|
  {
    if |rows| == 1 {
      assert rows[..0] == [] && rows[1..] == [];
    } else {
      SizeOfLast(rows[1..]);
      assert rows[1..][..|rows| - 2] == rows[..|rows| - 1][1..];
    }
  }

  /** The cut bound: below `cut` every finding might be matched; from `cut` on
      only the slots from `cut` on can be used. */
  lemma CutBound(rows: seq<seq<nat>>, current: seq<nat>, baseline: seq<nat>, cut: nat)
    requires |current| == |baseline| && IsAssignment(rows, current, baseline)
    requires cut <= |rows|
    ensures Size(rows) <= SumUpTo(current, cut) + SumFrom(baseline, cut)
  {
    var n := |baseline|;
    UsedSplit(rows, n, cut);
    LowRowsAreBounded(rows[..cut], current);
    var high := rows[cut..];
    forall s, t | 0 <= s < |high| && 0 <= t < n && high[s][t] > 0
      ensures cut + s <= t
    {
      assert high[s] == rows[cut + s];
    }
    HighRowsUseHighSlots(high, n, cut, cut);
    SumFromMonotone(Used(high, n), baseline, cut);
  }

  // ----- The greedy pass is an assignment, and a largest one

  /** The greedy total after k severities. */
  function TotalMatched(current: seq<nat>, baseline: seq<nat>, k: nat): nat
    requires |current| == |baseline| && k <= |current|
  {
    if k == 0 then 0
    else TotalMatched(current, baseline, k - 1) + Matched(current, baseline, k - 1)
  }

  /** The slots used by severity k in the greedy pass. */
  function GreedyRow(current: seq<nat>, baseline: seq<nat>, k: nat): seq<nat>
    requires |current| == |baseline| && k < |current|
  {
    var before, after := Remaining(current, baseline, k), Remaining(current, baseline, k + 1);
    seq(|baseline|, t requires 0 <= t < |baseline| => if after[t] <= before[t] then before[t] - after[t] else 0)
  }

  function GreedyRows(current: seq<nat>, baseline: seq<nat>, k: nat): seq<seq<nat>>
    requires |current| == |baseline| && k <= |current|
  {
    seq(k, i requires 0 <= i < k => GreedyRow(current, baseline, i))
  }

  lemma GreedyStep(current: seq<nat>, baseline: seq<nat>, k: nat)
    requires |current| == |baseline| && k < |current|
    ensures var before, after := Remaining(current, baseline, k), Remaining(current, baseline, k + 1);
            && (forall j :: 0 <= j < |after| ==> after[j] <= before[j])
            && (forall j :: 0 <= j < |after| && j < k ==> after[j] == before[j])
            && (forall t, j :: k <= t < j < |after| && after[t] > 0 ==> after[j] == before[j])
            && (forall c: nat :: c <= k ==> SumFrom(after, c) == SumFrom(before, c) - Matched(current, baseline, k))
  {
    TakeLowestEffect(Remaining(current, baseline, k), k, Matched(current, baseline, k));
  }

  lemma GreedyRowSum(current: seq<nat>, baseline: seq<nat>, k: nat)
    requires |current| == |baseline| && k < |current|
    ensures SumFrom(GreedyRow(current, baseline, k), 0) == Matched(current, baseline, k)
    ensures AddAll(GreedyRow(current, baseline, k), Remaining(current, baseline, k + 1))
         == Remaining(current, baseline, k)
    ensures forall t :: 0 <= t < |baseline| && GreedyRow(current, baseline, k)[t] > 0 ==> k <= t
  {
    GreedyStep(current, baseline, k);
    var row, after := GreedyRow(current, baseline, k), Remaining(current, baseline, k + 1);
    assert AddAll(row, after) == Remaining(current, baseline, k);
    SumFromAddAll(row, after, 0);
  }

  lemma {:induction false} GreedyUse(current: seq<nat>, baseline: seq<nat>, k: nat, from: nat)
    requires |current| == |baseline| && from <= k <= |current|
    ensures AddAll(Used(GreedyRows(current, baseline, k)[from..], |baseline|), Remaining(current, baseline, k))
         == Remaining(current, baseline, from)
    ensures Size(GreedyRows(current, baseline, k)[from..])
         == TotalMatched(current, baseline, k) - TotalMatched(current, baseline, from)
    decreases k - from
  {
    var rows := GreedyRows(current, baseline, k);
    if from < k {
      GreedyUse(current, baseline, k, from + 1);
      GreedyRowSum(current, baseline, from);
      assert rows[from..][1..] == rows[from + 1..] && rows[from..][0] == GreedyRow(current, baseline, from);
    }
  }

  /** The greedy pass never uses a slot twice, or one of a lower severity. */
  lemma GreedyIsAssignment(current: seq<nat>, baseline: seq<nat>, k: nat)
    requires |current| == |baseline| && k <= |current|
    ensures IsAssignment(GreedyRows(current, baseline, k), current, baseline)
    ensures Size(GreedyRows(current, baseline, k)) == TotalMatched(current, baseline, k)
  {
    var rows := GreedyRows(current, baseline, k);
    forall i | 0 <= i < k
      ensures SumFrom(rows[i], 0) <= current[i]
      ensures forall t :: 0 <= t < |rows[i]| && rows[i][t] > 0 ==> i <= t
    {
      GreedyRowSum(current, baseline, i);
    }
    GreedyUse(current, baseline, k, 0);
    assert rows[0..] == rows;
    var used := Used(rows, |baseline|);
    forall t | 0 <= t < |baseline|
      ensures used[t] <= baseline[t]
    {
      assert AddAll(used, Remaining(current, baseline, k))[t] == baseline[t];
    }
  }

  lemma {:induction false} RemainingShrinks(current: seq<nat>, baseline: seq<nat>, i: nat, k: nat)
    requires |current| == |baseline| && i <= k <= |current|
    ensures forall j :: 0 <= j < |baseline| ==> Remaining(current, baseline, k)[j] <= Remaining(current, baseline, i)[j]
    decreases k - i
  {
    if i < k {
      RemainingShrinks(current, baseline, i + 1, k);
      GreedyStep(current, baseline, i);
    }
  }

  /** With a slot left over at t, severities up to t are all matched without
      touching any slot above t. */
  lemma {:induction false} BelowALeftover(current: seq<nat>, baseline: seq<nat>, t: nat, i: nat, k: nat)
    requires |current| == |baseline| && i <= k <= |current| && i <= t + 1 && t < |baseline|
    requires Remaining(current, baseline, k)[t] > 0
    ensures TotalMatched(current, baseline, i) == SumUpTo(current, i)
    ensures SumFrom(Remaining(current, baseline, i), t + 1) == SumFrom(baseline, t + 1)
    decreases i
  {
    if i > 0 {
      BelowALeftover(current, baseline, t, i - 1, k);
      GreedyStep(current, baseline, i - 1);
      RemainingShrinks(current, baseline, i, k);
      var before, after := Remaining(current, baseline, i - 1), Remaining(current, baseline, i);
      SumFromEqualTails(before, after, t + 1);
      SumFromEntry(after, i - 1, t);
    }
  }

  /** Above it, every match uses one of the slots above. */
  lemma {:induction false} AboveACut(current: seq<nat>, baseline: seq<nat>, cut: nat, i: nat)
    requires |current| == |baseline| && cut <= i <= |current|
    ensures TotalMatched(current, baseline, i) + SumFrom(Remaining(current, baseline, i), cut)
         == TotalMatched(current, baseline, cut) + SumFrom(Remaining(current, baseline, cut), cut)
    decreases i
  {
    if i > cut {
      AboveACut(current, baseline, cut, i - 1);
      GreedyStep(current, baseline, i - 1);
    }
  }

  /** The highest severity at which a slot is left over, if any. */
  lemma HighestLeftover(left: seq<nat>) returns (cut: nat)
    ensures cut <= |left|
    ensures forall j :: cut <= j < |left| ==> left[j] == 0
    ensures cut > 0 ==> left[cut - 1] > 0
  {
    cut := |left|;
    while cut > 0 && left[cut - 1] == 0
      invariant cut <= |left|
      invariant forall j :: cut <= j < |left| ==> left[j] == 0
    {
      cut := cut - 1;
    }
  }

  /** Some cut bound is met exactly. */
  lemma TightCut(current: seq<nat>, baseline: seq<nat>, k: nat) returns (cut: nat)
    requires |current| == |baseline| && k <= |current|
    ensures cut <= k
    ensures TotalMatched(current, baseline, k) == SumUpTo(current, k)
         || TotalMatched(current, baseline, k) == SumUpTo(current, cut) + SumFrom(baseline, cut)
  {
    var left := Remaining(current, baseline, k);
    var top := HighestLeftover(left);
    if top > k {
      cut := k;
      BelowALeftover(current, baseline, top - 1, k, k);
    } else {
      cut := top;
      if top > 0 {
        BelowALeftover(current, baseline, top - 1, top, k);
      }
      AboveACut(current, baseline, cut, k);
      SumFromZero(left, cut);
    }
  }

  /** No assignment of the first k severities matches more findings. */
  lemma GreedyIsMaximal(current: seq<nat>, baseline: seq<nat>, rows: seq<seq<nat>>)
    requires |current| == |baseline| && IsAssignment(rows, current, baseline)
    ensures Size(rows) <= TotalMatched(current, baseline, |rows|)
  {
    var cut := TightCut(current, baseline, |rows|);
    CutBound(rows, current, baseline, cut);
    LowRowsAreBounded(rows, current);
  }

  /** What is left unmatched. */
  function Unmatched(current: seq<nat>, baseline: seq<nat>): int
    requires |current| == |baseline|
  {
    SumFrom(current, 0) - TotalMatched(current, baseline, |current|)
  }

  function Excess(current: seq<nat>, baseline: seq<nat>, s: nat): int {
    SumFrom(current, s) - SumFrom(baseline, s)
  }

  /** The unmatched total is the largest excess of any suffix, or zero. */
  lemma UnmatchedIsLargestExcess(current: seq<nat>, baseline: seq<nat>)
    requires |current| == |baseline|
    ensures Unmatched(current, baseline) >= 0
    ensures forall s: nat :: s <= |current| ==> Excess(current, baseline, s) <= Unmatched(current, baseline)
    ensures Unmatched(current, baseline) == 0
         || exists s: nat :: s <= |current| && Unmatched(current, baseline) == Excess(current, baseline, s)
  {
    var n := |current|;
    GreedyIsAssignment(current, baseline, n);
    var rows := GreedyRows(current, baseline, n);
    forall s: nat | s <= n
      ensures Excess(current, baseline, s) <= Unmatched(current, baseline)
    {
      CutBound(rows, current, baseline, s);
      SumSplit(current, s);
    }
    LowRowsAreBounded(rows, current);
    SumSplit(current, n);
    var cut := TightCut(current, baseline, n);
    SumSplit(current, cut);
    assert Unmatched(current, baseline) != 0 ==> Unmatched(current, baseline) == Excess(current, baseline, cut);
  }

  /** Every suffix of the current findings fits in the baseline's. */
  predicate Dominated(current: seq<nat>, baseline: seq<nat>)
    requires |current| == |baseline|
  {
    forall s :: 0 <= s < |current| ==> SumFrom(current, s) <= SumFrom(baseline, s)
  }

  lemma {:induction false} TotalIsSumOfMatched(current: seq<nat>, baseline: seq<nat>, k: nat)
    requires |current| == |baseline| && k <= |current|
    ensures TotalMatched(current, baseline, k) <= SumUpTo(current, k)
    ensures TotalMatched(current, baseline, k) == SumUpTo(current, k)
            <==> forall i :: 0 <= i < k ==> !Overflows(current, baseline, i)
    decreases k
  {
    if k > 0 {
      TotalIsSumOfMatched(current, baseline, k - 1);
      assert Overflows(current, baseline, k - 1) <==> Matched(current, baseline, k - 1) < current[k - 1];
    }
  }

  /** No severity is flagged exactly when every suffix sum is dominated. */
  lemma NoOverflowIffDominated(current: seq<nat>, baseline: seq<nat>)
    requires |current| == |baseline|
    ensures (forall k :: 0 <= k < |current| ==> !Overflows(current, baseline, k))
            <==> Dominated(current, baseline)
  {
    UnmatchedIsLargestExcess(current, baseline);
    TotalIsSumOfMatched(current, baseline, |current|);
    SumSplit(current, |current|);
    if Dominated(current, baseline) {
      forall s: nat | s <= |current|
        ensures Excess(current, baseline, s) <= 0
      {
        assert s == |current| ==> SumFrom(current, s) == 0;
      }
    }
    if Unmatched(current, baseline) == 0 {
      forall s | 0 <= s < |current|
        ensures SumFrom(current, s) <= SumFrom(baseline, s)
      {
        assert Excess(current, baseline, s) <= 0;
      }
    }
  }

  /** Severity k is flagged exactly when no assignment of the first k + 1
      severities matches all its findings on top of a largest one of the first k. */
  lemma FlagMeansNoRoom(current: seq<nat>, baseline: seq<nat>, k: nat)
    requires |current| == |baseline| && k < |current|
    ensures Overflows(current, baseline, k)
            <==> forall rows :: IsAssignment(rows, current, baseline) && |rows| == k + 1
                                ==> Size(rows) < TotalMatched(current, baseline, k) + current[k]
  {
    hide IsAssignment;
    hide Remaining;
    hide SumFrom;
    if Overflows(current, baseline, k) {
      forall rows | IsAssignment(rows, current, baseline) && |rows| == k + 1
        ensures Size(rows) < TotalMatched(current, baseline, k) + current[k]
      {
        GreedyIsMaximal(current, baseline, rows);
      }
    } else {
      GreedyIsAssignment(current, baseline, k + 1);
      assert |GreedyRows(current, baseline, k + 1)| == k + 1;
    }
  }
}
