/**
  The proposal store of src/stores/proposalManagement.js: of the user's proposals, the active
  ones, and among those the ones that still have real-time observing credit.
 */
module ProposalManagement {
  import opened Common
  import opened Json

  /**
    One time allocation. The two amounts are numbers, or missing (None), which makes their
    difference NaN.
   */
  datatype TimeAllocation = TimeAllocation(realtimeAllocation: Option<real>, realtimeTimeUsed: Option<real>)

  /** A proposal: its `current` flag as sent, its allocations and the whole record. */
  datatype Proposal = Proposal(current: Json, timeAllocations: seq<TimeAllocation>, record: Json)

  /** `proposal.current === true`: strict, so neither "true" nor 1 makes a proposal current. */
  predicate IsActive(p: Proposal)
  {
    p.current == JBool(true)
  }

  /** `realtime_allocation - realtime_time_used > 0`; a comparison with NaN is false. */
  predicate HasCredit(t: TimeAllocation)
  {
    t.realtimeAllocation.Some? && t.realtimeTimeUsed.Some?
    && t.realtimeAllocation.value - t.realtimeTimeUsed.value > 0.0
  }

  /** Lines 30-34: some allocation of the proposal has credit left. */
  predicate HasRealTimeAllocation(p: Proposal)
  {
    exists i :: 0 <= i < |p.timeAllocations| && HasCredit(p.timeAllocations[i])
  }

  /** `proposals.filter(proposal => proposal.current === true)` */
  function ActiveProposals(ps: seq<Proposal>): (r: seq<Proposal>)
    ensures |r| <= |ps|
    ensures forall j :: 0 <= j < |r| ==> IsActive(r[j]) && r[j] in ps
  {
    if ps == [] then []
    else ActiveProposals(ps[..|ps| - 1]) + (if IsActive(ps[|ps| - 1]) then [ps[|ps| - 1]] else [])
  }

  /** What the loop of lines 28-38 pushes: the proposals with real-time credit, in order. */
  function RealTimeProposals(ps: seq<Proposal>): (r: seq<Proposal>)
    ensures |r| <= |ps|
    ensures forall j :: 0 <= j < |r| ==> HasRealTimeAllocation(r[j]) && r[j] in ps
  {
    if ps == [] then []
    else RealTimeProposals(ps[..|ps| - 1]) + (if HasRealTimeAllocation(ps[|ps| - 1]) then [ps[|ps| - 1]] else [])
  }

  /** xs is ys with some elements left out, the rest in their order. */
  predicate IsSubsequence(xs: seq<Proposal>, ys: seq<Proposal>)
    decreases |ys|
  {
    if xs == [] then true
    else if ys == [] then false
    else (xs[|xs| - 1] == ys[|ys| - 1] && IsSubsequence(xs[..|xs| - 1], ys[..|ys| - 1]))
         || IsSubsequence(xs, ys[..|ys| - 1])
  }

  /** A proposal is active exactly when it is in the input and current. */
  lemma {:induction false} ActiveMembers(ps: seq<Proposal>, p: Proposal)
    ensures p in ActiveProposals(ps) <==> p in ps && IsActive(p)
  {
    if ps != [] {
      ActiveMembers(ps[..|ps| - 1], p);
      assert ps == ps[..|ps| - 1] + [ps[|ps| - 1]];
    }
  }

  /** The active proposals keep the input order. */
  lemma {:induction false} ActiveInOrder(ps: seq<Proposal>)
    ensures IsSubsequence(ActiveProposals(ps), ps)
  {
    if ps != [] {
      var n := |ps| - 1;
      ActiveInOrder(ps[..n]);
      var r := ActiveProposals(ps);
      if IsActive(ps[n]) {
        assert r[..|r| - 1] == ActiveProposals(ps[..n]);
      } else {
        assert r == ActiveProposals(ps[..n]);
      }
    }
  }

  /** A proposal has real-time credit listed exactly when it is in the list and has credit. */
  lemma {:induction false} RealTimeMembers(ps: seq<Proposal>, p: Proposal)
    ensures p in RealTimeProposals(ps) <==> p in ps && HasRealTimeAllocation(p)
  {
    if ps != [] {
      RealTimeMembers(ps[..|ps| - 1], p);
      assert ps == ps[..|ps| - 1] + [ps[|ps| - 1]];
    }
  }

  lemma {:induction false} RealTimeInOrder(ps: seq<Proposal>)
    ensures IsSubsequence(RealTimeProposals(ps), ps)
  {
    if ps != [] {
      var n := |ps| - 1;
      RealTimeInOrder(ps[..n]);
      var r := RealTimeProposals(ps);
      if HasRealTimeAllocation(ps[n]) {
        assert r[..|r| - 1] == RealTimeProposals(ps[..n]);
      } else {
        assert r == RealTimeProposals(ps[..n]);
      }
    }
  }

  /**
    The real-time list: exactly the current proposals with an allocation that has credit left,
    in the order of the active list.
   */
  lemma RealTimeOfActive(ps: seq<Proposal>, p: Proposal)
    ensures p in RealTimeProposals(ActiveProposals(ps)) <==> p in ps && IsActive(p) && HasRealTimeAllocation(p)
    ensures IsSubsequence(RealTimeProposals(ActiveProposals(ps)), ActiveProposals(ps))
  {
    RealTimeMembers(ActiveProposals(ps), p);
    ActiveMembers(ps, p);
    RealTimeInOrder(ActiveProposals(ps));
  }

  /** Filtering once more removes nothing: the active list is all active. */
  lemma {:induction false} ActiveIdempotent(ps: seq<Proposal>)
    ensures ActiveProposals(ActiveProposals(ps)) == ActiveProposals(ps)
  {
    if ps != [] {
      var n := |ps| - 1;
      ActiveIdempotent(ps[..n]);
      ActiveOfAppend(ActiveProposals(ps[..n]), if IsActive(ps[n]) then [ps[n]] else []);
    }
  }

  lemma {:induction false} ActiveOfAppend(xs: seq<Proposal>, ys: seq<Proposal>)
    ensures ActiveProposals(xs + ys) == ActiveProposals(xs) + ActiveProposals(ys)
    decreases |ys|
  {
    if ys == [] {
      assert xs + ys == xs;
    } else {
      var n := |ys| - 1;
      var kept := if IsActive(ys[n]) then [ys[n]] else [];
      ActiveOfAppend(xs, ys[..n]);
      assert (xs + ys)[..|xs + ys| - 1] == xs + ys[..n];
      assert (xs + ys)[|xs + ys| - 1] == ys[n];
      assert ActiveProposals(xs + ys) == ActiveProposals(xs + ys[..n]) + kept;
      assert ActiveProposals(ys) == ActiveProposals(ys[..n]) + kept;
      ConcatAssociative(ActiveProposals(xs), ActiveProposals(ys[..n]), kept);
    }
  }

  /** A proposal without allocations never has real-time credit. */
  lemma NoAllocationsNoRealTime(p: Proposal)
    requires p.timeAllocations == []
    ensures !HasRealTimeAllocation(p)
  {
  }

  class ProposalStore {
    var proposalsWithRealTimeAllocation: seq<Proposal>
    var allActiveProposals: seq<Proposal>

    constructor ()
      ensures proposalsWithRealTimeAllocation == [] && allActiveProposals == []
    {
      proposalsWithRealTimeAllocation := [];
      allActiveProposals := [];
    }

    /**
      `sortProposals(proposals)`: both lists are reset first, so the new state depends on the
      argument alone.
     */
    method SortProposals(proposals: seq<Proposal>)
      modifies this
      ensures allActiveProposals == ActiveProposals(proposals)
      ensures proposalsWithRealTimeAllocation == RealTimeProposals(ActiveProposals(proposals))
    {
      allActiveProposals := [];
      proposalsWithRealTimeAllocation := [];
      var activeProposals := ActiveProposals(proposals);
      allActiveProposals := activeProposals;
      var i := 0;
      while i < |activeProposals|
        invariant 0 <= i <= |activeProposals|
        invariant allActiveProposals == activeProposals
        invariant proposalsWithRealTimeAllocation == RealTimeProposals(activeProposals[..i])
      {
        var proposal := activeProposals[i];
        var hasRealTimeAllocation := AnyCredit(proposal.timeAllocations);
        if hasRealTimeAllocation {
          proposalsWithRealTimeAllocation := proposalsWithRealTimeAllocation + [proposal];
        }
        assert activeProposals[..i + 1][..i] == activeProposals[..i];
        i := i + 1;
      }
      assert activeProposals[..i] == activeProposals;
    }
  }

  /** `time_allocations.some(...)`: true exactly when some allocation has credit. */
  function AnyCredit(ts: seq<TimeAllocation>): (b: bool)
    ensures b <==> exists i :: 0 <= i < |ts| && HasCredit(ts[i])
  {
    if ts == [] then false
    else if HasCredit(ts[0]) then true
    else
      var b := AnyCredit(ts[1..]);
      assert forall i :: 1 <= i < |ts| ==> ts[i] == ts[1..][i - 1];
      b
  }
}
