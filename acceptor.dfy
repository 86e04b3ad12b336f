/**
 * The acceptor's rule (`accepting`, main.go:274-289) as a pure step on its two globals,
 * and what the rule guarantees across any sequence of inbound proposals.
 */
module Acceptor {
  import opened Proposals

  /** The acceptor's globals `minProposal` and `acceptedProposal`. */
  datatype AcceptorState = AcceptorState(minProposal: int64, accepted: Proposal)

  /** The state at process start: both globals at Go's zero value. */
  const Initial: AcceptorState := AcceptorState(0, Zero)

  /** The accepted proposal carries the highest id seen. */
  predicate Consistent(s: AcceptorState) {
    s.accepted.id == s.minProposal
  }

  /** One inbound proposal: a strictly higher id replaces both globals, anything else is ignored. */
  function Accept(s: AcceptorState, prop: Proposal): (r: AcceptorState)
    ensures r.minProposal >= s.minProposal && r.minProposal >= prop.id
    ensures r.minProposal == s.minProposal || r.minProposal == prop.id
    ensures Consistent(s) ==> Consistent(r)
  {
    if prop.id > s.minProposal then AcceptorState(prop.id, prop) else s
  }

  /**
   * The one message `accepting` sends: the accepted proposal after the update, addressed
   * to the proposal's author (its serverId), not to the peer the connection came from.
   */
  function Reply(s: AcceptorState, prop: Proposal): (m: Message)
    ensures m.to == prop.serverId
    ensures Consistent(s) ==> m.proposal.id >= prop.id && m.proposal.id >= s.minProposal
  {
    Send(prop.serverId, Accept(s, prop).accepted)
  }

  /** The acceptor's state after handling `props` in order. */
  function AcceptAll(s: AcceptorState, props: seq<Proposal>): AcceptorState
    decreases |props|
  {
    if |props| == 0 then s else Accept(AcceptAll(s, props[..|props| - 1]), props[|props| - 1])
  }

  /** The largest id among `props`, or `floor` if none is larger. */
  function MaxId(floor: int64, props: seq<Proposal>): (m: int64)
    ensures m >= floor
    ensures forall k :: 0 <= k < |props| ==> props[k].id <= m
    ensures m == floor || exists k :: 0 <= k < |props| && props[k].id == m
    decreases |props|
  {
    if |props| == 0 then floor
    else
      var m := MaxId(floor, props[..|props| - 1]);
      var last := props[|props| - 1].id;
      assert forall k :: 0 <= k < |props| - 1 ==> props[..|props| - 1][k] == props[k];
      if last > m then last else m
  }

  // ---------------------------------------------------------------------------

  /** The update rule in both directions. */
  lemma AcceptUpdate(s: AcceptorState, prop: Proposal)
    ensures prop.id > s.minProposal ==> Accept(s, prop).accepted == prop && Accept(s, prop).minProposal == prop.id
    ensures prop.id <= s.minProposal ==> Accept(s, prop) == s
  {
  }

  /** After any sequence of proposals, `minProposal` is the largest id seen (or the old one). */
  lemma {:induction false} AcceptAllMin(s: AcceptorState, props: seq<Proposal>)
    ensures AcceptAll(s, props).minProposal == MaxId(s.minProposal, props)
    decreases |props|
  {
    if |props| > 0 {
      AcceptAllMin(s, props[..|props| - 1]);
    }
  }

  /** `minProposal` never decreases: a longer prefix never has a smaller one. */
  lemma {:induction false} MinProposalNeverDecreases(s: AcceptorState, props: seq<Proposal>, i: nat, j: nat)
    requires i <= j <= |props|
    ensures AcceptAll(s, props[..i]).minProposal <= AcceptAll(s, props[..j]).minProposal
    decreases j - i
  {
    if i < j {
      MinProposalNeverDecreases(s, props, i, j - 1);
      assert props[..j][..j - 1] == props[..j - 1];
    }
  }

  /** From any consistent state, and so from the zero state, the acceptor stays consistent. */
  lemma {:induction false} AcceptAllConsistent(s: AcceptorState, props: seq<Proposal>)
    requires Consistent(s)
    ensures Consistent(AcceptAll(s, props))
    decreases |props|
  {
    if |props| > 0 {
      AcceptAllConsistent(s, props[..|props| - 1]);
    }
  }

  lemma InitialConsistent()
    ensures Consistent(Initial)
  {
  }

  /** `props[i]` carries the largest id, beats `floor`, and no earlier proposal has that id. */
  ghost predicate FirstMax(props: seq<Proposal>, i: int, floor: int64) {
    && 0 <= i < |props| && props[i].id > floor
    && (forall k :: 0 <= k < i ==> props[k].id < props[i].id)
    && (forall k :: i <= k < |props| ==> props[k].id <= props[i].id)
  }

  /**
   * The accepted proposal is the first one in the sequence that carries the largest id,
   * when that id beats the starting `minProposal`; otherwise nothing was accepted.
   */
  lemma {:induction false} AcceptAllAccepted(s: AcceptorState, props: seq<Proposal>)
    ensures var r := AcceptAll(s, props);
      || (r == s && forall k :: 0 <= k < |props| ==> props[k].id <= s.minProposal)
      || exists i :: FirstMax(props, i, s.minProposal) && r == AcceptorState(props[i].id, props[i])
    decreases |props|
  {
    if |props| > 0 {
      var n := |props|;
      var init := props[..n - 1];
      var last := props[n - 1];
      assert forall k :: 0 <= k < n - 1 ==> init[k] == props[k];
      AcceptAllAccepted(s, init);
      AcceptAllMin(s, init);
      var r0 := AcceptAll(s, init);
      assert forall k :: 0 <= k < n - 1 ==> props[k].id <= r0.minProposal;
      if last.id > r0.minProposal {
        assert FirstMax(props, n - 1, s.minProposal);
      } else if r0 == s && forall k :: 0 <= k < n - 1 ==> props[k].id <= s.minProposal {
        assert forall k :: 0 <= k < n ==> props[k].id <= s.minProposal;
      } else {
        var i :| FirstMax(init, i, s.minProposal) && r0 == AcceptorState(init[i].id, init[i]);
        assert FirstMax(props, i, s.minProposal);
      }
    }
  }

  /**
   * Proposals with strictly increasing ids, the first beating `minProposal`, are each
   * accepted in turn: the last one is accepted and every later stale sender gets it back.
   */
  lemma {:induction false} IncreasingIdsAcceptLast(s: AcceptorState, props: seq<Proposal>, next: Proposal)
    requires |props| >= 1 && props[0].id > s.minProposal
    requires forall k :: 0 <= k < |props| - 1 ==> props[k].id < props[k + 1].id
    requires next.id <= props[|props| - 1].id
    ensures AcceptAll(s, props).accepted == props[|props| - 1]
    ensures AcceptAll(s, props).minProposal == props[|props| - 1].id
    ensures Reply(AcceptAll(s, props), next) == Send(next.serverId, props[|props| - 1])
    decreases |props|
  {
    if |props| > 1 {
      var init := props[..|props| - 1];
      IncreasingIdsAcceptLast(s, init, init[|init| - 1]);
    }
  }

  /** A proposal whose id is not higher leaves the state alone and is answered with the one accepted before. */
  lemma StaleProposalGetsAcceptedBack(s: AcceptorState, prop: Proposal)
    requires prop.id <= s.minProposal
    ensures Accept(s, prop) == s
    ensures Reply(s, prop) == Send(prop.serverId, s.accepted)
  {
  }
}
