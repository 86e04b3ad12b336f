/**
 * The proposer's bookkeeping (`prepare`, main.go:242-261, and `receives_acceptor`,
 * main.go:300-323) as specification functions: the quorum threshold, the vote tally
 * keyed on whole proposals, and how many copies of each message a fan-out sends.
 */
module Votes {
  import opened Proposals

  /** `len(acceptorMap)/2+1`: the votes a proposal needs among `acceptorCount` acceptor peers. */
  function Quorum(acceptorCount: nat): int {
    acceptorCount / 2 + 1
  }

  /** The threshold is the smallest strict majority. */
  lemma QuorumIsSmallestMajority(n: nat)
    ensures 2 * Quorum(n) > n
    ensures 2 * (Quorum(n) - 1) <= n
  {
  }

  lemma QuorumExamples()
    ensures Quorum(3) == 2 && Quorum(4) == 3 && Quorum(5) == 3
  {
  }

  /**
   * Two sets of distinct acceptors that both reach the threshold share an acceptor. This
   * is about the threshold arithmetic only: the tally counts replies, and an acceptor peer
   * listed under two matching numbers is sent the proposal twice and can reply twice.
   */
  lemma QuorumsIntersect<T>(all: set<T>, a: set<T>, b: set<T>)
    requires a <= all && b <= all
    requires |a| >= Quorum(|all|) && |b| >= Quorum(|all|)
    ensures a * b != {}
  {
    if a * b == {} {
      assert forall x :: x in a ==> x !in b by {
        forall x | x in a ensures x !in b {
          assert x !in a * b;
        }
      }
      assert |a + b| == |a| + |b|;
      assert a + b <= all;
      SubsetCardinality(a + b, all);
      assert false;
    }
  }

  lemma {:induction false} SubsetCardinality<T>(a: set<T>, b: set<T>)
    requires a <= b
    ensures |a| <= |b|
    decreases |b|
  {
    if a != {} {
      var x :| x in a;
      SubsetCardinality(a - {x}, b - {x});
    }
  }

  /** `proposalVotes[prop]++`: one more vote for exactly `prop`, a missing key counting from 0. */
  function Tally(votes: map<Proposal, int>, prop: Proposal): (r: map<Proposal, int>)
    ensures r.Keys == votes.Keys + {prop}
    ensures prop in votes ==> r[prop] == votes[prop] + 1
    ensures prop !in votes ==> r[prop] == 1
    ensures forall k :: k in votes && k != prop ==> r[k] == votes[k]
  {
    var previous := if prop in votes then votes[prop] else 0;
    votes[prop := previous + 1]
  }

  /** `proposalVotes[k] >= threshold`: the key `k` has a majority. */
  predicate Decided(votes: map<Proposal, int>, threshold: int, k: Proposal) {
    k in votes && votes[k] >= threshold
  }

  /** Another vote never takes a decision back, so a decided key is sent again on every vote. */
  lemma DecidedStaysDecided(votes: map<Proposal, int>, prop: Proposal, threshold: int, k: Proposal)
    requires Decided(votes, threshold, k)
    ensures Decided(Tally(votes, prop), threshold, k)
  {
  }

  /**
   * How many times the quorum fan-out after a vote sends message `m`: once for every
   * decided key and every learner peer whose numbers hold this proposer's first number
   * `ownNumbers[0]`, and never anything else.
   */
  function FanOutCount(votes: map<Proposal, int>, threshold: int,
                       learners: map<string, seq<int>>, ownNumbers: seq<int>, m: Message): nat
  {
    if Decided(votes, threshold, m.proposal) && m.to in learners
       && |ownNumbers| > 0 && ownNumbers[0] in learners[m.to]
    then 1 else 0
  }

  /**
   * The fan-out evaluates `proposerMap[hostname][0]` once a decided key meets a learner
   * peer, and that index panics when this host has no proposer numbers.
   */
  predicate FanOutPanics(votes: map<Proposal, int>, threshold: int,
                         learners: map<string, seq<int>>, ownNumbers: seq<int>) {
    (exists k :: k in votes && Decided(votes, threshold, k)) && |learners| > 0 && |ownNumbers| == 0
  }

  /** The number of entries of `vals` that occur in `nums`, each counted once per entry. */
  function MatchCount(vals: seq<int>, nums: seq<int>): (c: nat)
    ensures c <= |vals|
    decreases |vals|
  {
    if |vals| == 0 then 0
    else MatchCount(vals[..|vals| - 1], nums) + (if vals[|vals| - 1] in nums then 1 else 0)
  }

  /** Every entry matches exactly when the count is the length; none, when it is 0. */
  lemma {:induction false} MatchCountExtremes(vals: seq<int>, nums: seq<int>)
    ensures MatchCount(vals, nums) == |vals| <==> forall k :: 0 <= k < |vals| ==> vals[k] in nums
    ensures MatchCount(vals, nums) == 0 <==> forall k :: 0 <= k < |vals| ==> vals[k] !in nums
    decreases |vals|
  {
    if |vals| > 0 {
      var init := vals[..|vals| - 1];
      MatchCountExtremes(init, nums);
      assert forall k :: 0 <= k < |init| ==> init[k] == vals[k];
    }
  }

  /**
   * How many times `prepare` sends message `m`: only its own proposal, to an acceptor
   * peer, once per entry of that peer's number list that occurs in this proposer's list.
   */
  function PrepareCount(acceptors: map<string, seq<int>>, ownNumbers: seq<int>,
                        p: Proposal, m: Message): nat
  {
    if m.proposal == p && m.to in acceptors then MatchCount(acceptors[m.to], ownNumbers) else 0
  }
}
