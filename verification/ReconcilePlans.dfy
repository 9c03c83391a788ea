/** What a review reconciliation compares and plans (crates/cli/src/ci.rs). */
module ReconcilePlans {
  import opened Wrappers
  import opened SortedKeys
  import opened Markers
  import opened Reconcile
  import opened ReconcileRuns

  /** The fingerprints of this run and of the provider, in order. */
  datatype Plan = Plan(current: seq<string>, existing: seq<string>, unposted: seq<string>, stale: seq<string>)

  method ReconcileSets(current: set<string>, existing: set<string>) returns (plan: Plan)
    ensures StrictlySorted(plan.current) && Elements(plan.current) == current
    ensures StrictlySorted(plan.existing) && Elements(plan.existing) == existing
    ensures IsPlan(current, existing, plan)
  {
    hide StrictlySorted;
    hide Sorted;
    var c := SortKeys(current);
    var e := SortKeys(existing);
    var u := SortKeys(current - existing);
    var s := SortKeys(existing - current);
    plan := Plan(c, e, u, s);
    forall f
      ensures f in u <==> f in current && f !in existing
      ensures f in s <==> f in existing && f !in current
    {
      assert f in u <==> f in Elements(u);
      assert f in s <==> f in Elements(s);
    }
  }

  ghost predicate IsPlan(current: set<string>, existing: set<string>, plan: Plan) {
    && StrictlySorted(plan.unposted) && StrictlySorted(plan.stale)
    && (forall f :: f in plan.unposted <==> f in current && f !in existing)
    && (forall f :: f in plan.stale <==> f in existing && f !in current)
  }

  /** New and shared fingerprints make up the current ones, stale and shared ones
      the existing ones, and no fingerprint is in two parts. */
  lemma PlanIsPartition(current: set<string>, existing: set<string>, plan: Plan)
    requires IsPlan(current, existing, plan)
    ensures forall f :: f in plan.unposted ==> f !in plan.stale
    ensures |plan.unposted| + |current * existing| == |current|
    ensures |plan.stale| + |current * existing| == |existing|
  {
    SortedHasNoDuplicates(plan.unposted);
    SortedHasNoDuplicates(plan.stale);
    assert Elements(plan.unposted) == current - existing;
    assert Elements(plan.stale) == existing - current;
    assert current == (current - existing) + (current * existing);
    assert existing == (existing - current) + (current * existing);
  }

  /** Load, plan, stage and apply without a failure, then load and plan again on
      the same findings: nothing but resolving GitLab discussions is staged. */
  lemma SecondRunIsQuiet(provider: Provider, s: Server, current: set<string>, existing: set<string>, plan: Plan,
                         sha: Option<string>, again: Plan, left: set<string>)
    requires HexSha(sha) && IsPlan(current, existing, plan) && IsPlan(current, left, again)
    requires forall f :: f in existing <==>
               IsFingerprint(SeenComments(provider, s), f) || IsFingerprint(SeenNotes(provider, s), f)
    requires Readable(plan.stale, sha)
    ensures var next := Stage(provider, ApplyAll(s, Stage(provider, s, plan.stale, sha)), again.stale, sha);
            && (provider == Github ==> next == [])
            && forall op :: op in next ==> !IsReply(op)
  {
    SortedHasNoDuplicates(plan.stale);
    NothingLeftToStage(provider, s, current, plan.stale, sha, again.stale);
  }
}
