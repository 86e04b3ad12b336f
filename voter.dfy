/**
 * One voter process: the package-level globals of main.go as the fields of a `Peer`,
 * and each handler as a method that runs as one atomic step. Every `sendValue(peer, p)`
 * appends `Send(peer, p)` to `outbox`; the learner's "accept" log line appends the
 * proposal to `learned`. A method that returns `ok == false` stands for a Go panic,
 * which ends the whole process.
 */
module Voter {
  import opened Proposals
  import opened Strings
  import Codec
  import opened Acceptor
  import opened Votes
  import opened Hosts

  /** `contains`: a linear search of `list` for `value`. */
  method ContainsNumber(list: seq<int>, value: int) returns (found: bool)
    ensures found <==> value in list
  {
    for i := 0 to |list|
      invariant value !in list[..i]
    {
      if list[i] == value {
        return true;
      }
    }
    return false;
  }

  /** `proposalVotes` as Go reads it: a nil map reads as the empty map. */
  function Counts(votes: Option<map<Proposal, int>>): map<Proposal, int> {
    match votes
    case None => map[]
    case Some(v) => v
  }

  class Peer {
    /** `os.Hostname()`, given rather than asked of the operating system. */
    const hostname: string
    var isProposer: bool
    var isAcceptor: bool
    var isLearner: bool
    var minProposal: int64
    var acceptedProposal: Proposal
    var myProposal: Proposal
    /** `proposalVotes`; None is the nil map it is until `prepare` makes it. */
    var proposalVotes: Option<map<Proposal, int>>
    var acceptorMap: map<string, seq<int>>
    var proposerMap: map<string, seq<int>>
    var learnerMap: map<string, seq<int>>
    var processNumbers: seq<int>
    var outbox: seq<Message>
    var learned: seq<Proposal>

    /** The globals at process start, with the role maps as `gethosts` makes them. */
    constructor (hostname: string)
      ensures this.hostname == hostname
      ensures !isProposer && !isAcceptor && !isLearner
      ensures AcceptorState(minProposal, acceptedProposal) == Initial
      ensures myProposal == Zero && proposalVotes == None
      ensures acceptorMap == map[] && proposerMap == map[] && learnerMap == map[]
      ensures processNumbers == [] && outbox == [] && learned == []
    {
      this.hostname := hostname;
      isProposer, isAcceptor, isLearner := false, false, false;
      minProposal, acceptedProposal := 0, Zero;
      myProposal, proposalVotes := Zero, None;
      acceptorMap, proposerMap, learnerMap := map[], map[], map[];
      processNumbers, outbox, learned := [], [], [];
    }

    /** The role flags. */
    function FlagsView(): Flags
      reads this`isProposer, this`isAcceptor, this`isLearner
    {
      Flags(isProposer, isAcceptor, isLearner)
    }

    /** The globals `gethosts` fills. */
    function TablesView(): Tables
      reads this`proposerMap, this`acceptorMap, this`learnerMap, this`processNumbers
    {
      Tables(proposerMap, acceptorMap, learnerMap, processNumbers)
    }

    /** `currentHostRole`: sets only the first flag whose keyword occurs in the line. */
    method CurrentHostRole(line: string)
      modifies this`isProposer, this`isAcceptor, this`isLearner
      ensures FlagsView() == RoleFlags(old(FlagsView()), line)
    {
      if Contains(line, "proposer") {
        isProposer := true;
      } else if Contains(line, "acceptor") {
        isAcceptor := true;
      } else if Contains(line, "learner") {
        isLearner := true;
      }
    }

    /**
     * The body of the line loop of `gethosts`, for one line of the hosts file. Returns
     * false where Go panics (no `:`, or an empty token), with the tokens before the bad
     * one already added.
     */
    method ReadHostsLine(line: string) returns (ok: bool)
      modifies this`isProposer, this`isAcceptor, this`isLearner
      modifies this`acceptorMap, this`proposerMap, this`learnerMap, this`processNumbers
      ensures FlagsView() == SetRole(old(FlagsView()), hostname, line)
      ensures ok == ParseLine(line).complete
      ensures TablesView() == AddLineTo(old(TablesView()), line)
    {
      if Contains(line, hostname) {
        CurrentHostRole(line);
      }
      var pm, am, lm, pn;
      pm, am, lm, pn, ok := AddLine(line, proposerMap, acceptorMap, learnerMap, processNumbers);
      proposerMap, acceptorMap, learnerMap, processNumbers := pm, am, lm, pn;
    }

    /**
     * `gethosts` on the lines of the hosts file: fresh role maps, then each line in
     * turn, stopping after the first line on which Go panics.
     */
    method GetHosts(lines: seq<string>) returns (ok: bool)
      modifies this`isProposer, this`isAcceptor, this`isLearner
      modifies this`acceptorMap, this`proposerMap, this`learnerMap, this`processNumbers
      ensures ok == (FirstIncomplete(lines) == |lines|)
      ensures TablesView() == AddLines(Tables(map[], map[], map[], old(processNumbers)), Handled(lines))
      ensures FlagsView() == SetRoles(old(FlagsView()), hostname, Handled(lines))
    {
      acceptorMap, proposerMap, learnerMap := map[], map[], map[];
      ghost var start := TablesView();
      var i := 0;
      ok := true;
      while ok && i < |lines|
        invariant 0 <= i <= |lines|
        invariant ok ==> i <= FirstIncomplete(lines)
        invariant !ok ==> i == FirstIncomplete(lines) + 1
        invariant TablesView() == AddLines(start, lines[..i])
        invariant FlagsView() == SetRoles(old(FlagsView()), hostname, lines[..i])
        decreases |lines| - i
      {
        ok := ReadHostsLine(lines[i]);
        LinesStep(start, hostname, lines, i);
        if ok {
          assert i + 1 <= FirstIncomplete(lines) by {
            assert ParseLine(lines[i]).complete;
          }
        }
        i := i + 1;
      }
      if ok {
        assert lines[..i] == lines;
      }
      assert Handled(lines) == lines[..i];
    }

    /**
     * `prepare(v)`: the next id after `minProposal`, a fresh tally holding only this
     * proposal at 0 votes, and one send per (acceptor peer, number) pair whose number
     * is one of this host's proposer numbers; the order of the sends is Go's map order.
     */
    method Prepare(v: char)
      modifies this`myProposal, this`proposalVotes, this`outbox
      ensures myProposal == Proposal(Succ(minProposal), v, hostname)
      ensures proposalVotes == Some(map[myProposal := 0])
      ensures |outbox| >= |old(outbox)| && outbox[..|old(outbox)|] == old(outbox)
      ensures forall m :: multiset(outbox[|old(outbox)|..])[m]
                       == PrepareCount(acceptorMap, Lookup(proposerMap, hostname), myProposal, m)
    {
      var mine := Proposal(Succ(minProposal), v, hostname);
      var sent := PrepareSends(acceptorMap, Lookup(proposerMap, hostname), mine);
      myProposal := mine;
      proposalVotes := Some(map[mine := 0]);
      outbox := outbox + sent;
      assert outbox[|old(outbox)|..] == sent;
    }

    /**
     * `accepting` followed by `send_acceptance`: the acceptor rule, then one reply with
     * the accepted proposal, addressed to the proposal's serverId.
     */
    method Accepting(prop: Proposal, peerName: string)
      modifies this`minProposal, this`acceptedProposal, this`outbox
      ensures AcceptorState(minProposal, acceptedProposal) == Accept(old(AcceptorState(minProposal, acceptedProposal)), prop)
      ensures outbox == old(outbox) + [Reply(old(AcceptorState(minProposal, acceptedProposal)), prop)]
    {
      if prop.id > minProposal {
        acceptedProposal := Proposal(prop.id, prop.value, prop.serverId);
        minProposal := prop.id;
      }
      outbox := outbox + [Send(prop.serverId, acceptedProposal)];
    }

    /**
     * `receives_acceptor` with `send_learners`: one more vote for exactly `prop`, then
     * every key at or above `len(acceptorMap)/2+1` goes to every learner peer holding
     * this host's first proposer number. Returns false where Go panics: the tally map is
     * still nil, or a decided key meets a learner while this host has no proposer number.
     */
    method ReceivesAcceptor(prop: Proposal, peerName: string) returns (ok: bool)
      modifies this`proposalVotes, this`outbox
      ensures ok ==> proposalVotes.Some?
      ensures old(proposalVotes).None? ==> !ok && proposalVotes == None
      ensures old(proposalVotes).Some? ==> proposalVotes == Some(Tally(old(proposalVotes).value, prop))
      ensures old(proposalVotes).Some? ==>
                (ok <==> !FanOutPanics(Counts(proposalVotes), Quorum(|acceptorMap|), learnerMap, Lookup(proposerMap, hostname)))
      ensures !ok ==> outbox == old(outbox)
      ensures ok ==> |outbox| >= |old(outbox)| && outbox[..|old(outbox)|] == old(outbox)
      ensures ok ==> forall m :: multiset(outbox[|old(outbox)|..])[m]
                              == FanOutCount(Counts(proposalVotes), Quorum(|acceptorMap|), learnerMap, Lookup(proposerMap, hostname), m)
    {
      if proposalVotes.None? {
        // proposalVotes[prop]++ on a nil map panics
        return false;
      }
      var votes := Tally(proposalVotes.value, prop);
      var sent;
      sent, ok := FanOut(votes, Quorum(|acceptorMap|), learnerMap, Lookup(proposerMap, hostname));
      proposalVotes := Some(votes);
      if ok {
        outbox := outbox + sent;
        assert outbox[|old(outbox)|..] == sent;
      }
    }

    /** `accept_from_proposer`: the learner trusts the one decision it is sent. */
    method AcceptFromProposer(prop: Proposal, peerName: string)
      modifies this`learned
      ensures learned == old(learned) + [prop]
    {
      learned := learned + [prop];
    }

    /**
     * `receiveValue` after the read: decode the record, then hand it to each role this
     * host holds, proposer first, then acceptor, then learner. A proposer panic ends the
     * process before the other roles see the record.
     */
    method ReceiveValue(data: string, peerName: string) returns (ok: bool)
      modifies this`proposalVotes, this`outbox, this`minProposal, this`acceptedProposal, this`learned
      ensures !isProposer ==> ok && proposalVotes == old(proposalVotes)
      ensures isProposer ==>
                (ok <==> old(proposalVotes).Some?
                         && !FanOutPanics(Counts(proposalVotes), Quorum(|acceptorMap|), learnerMap, Lookup(proposerMap, hostname)))
      ensures isProposer && old(proposalVotes).Some? ==>
                proposalVotes == Some(Tally(old(proposalVotes).value, Codec.Decode(data)))
      ensures isProposer && old(proposalVotes).None? ==> proposalVotes == None
      ensures AcceptorState(minProposal, acceptedProposal) == if ok && isAcceptor then Accept(old(AcceptorState(minProposal, acceptedProposal)), Codec.Decode(data))
                                else old(AcceptorState(minProposal, acceptedProposal))
      ensures learned == if ok && isLearner then old(learned) + [Codec.Decode(data)] else old(learned)
      ensures !ok ==> outbox == old(outbox)
      ensures ok ==> |outbox| >= |old(outbox)| && outbox[..|old(outbox)|] == old(outbox)
      ensures ok ==> forall m :: multiset(outbox[|old(outbox)|..])[m]
                              == (if isProposer
                                  then FanOutCount(Counts(proposalVotes), Quorum(|acceptorMap|), learnerMap, Lookup(proposerMap, hostname), m)
                                  else 0)
                               + (if isAcceptor && m == Reply(old(AcceptorState(minProposal, acceptedProposal)), Codec.Decode(data)) then 1 else 0)
    {
      var received := Codec.Decode(data);
      if isProposer {
        ok := ReceiveAsProposer(received, peerName);
      } else {
        ok := true;
        ghost var votes, threshold, own := Counts(proposalVotes), Quorum(|acceptorMap|), Lookup(proposerMap, hostname);
        ghost var answer := Reply(AcceptorState(minProposal, acceptedProposal), received);
        Respond(received, peerName);
        CombineCounts(old(outbox), old(outbox), outbox, false, votes, threshold, learnerMap, own, isAcceptor, answer);
      }
    }

    /** `receiveValue` on a proposer host: the vote first, then the other roles unless it panicked. */
    method ReceiveAsProposer(prop: Proposal, peerName: string) returns (ok: bool)
      requires isProposer
      modifies this`proposalVotes, this`outbox, this`minProposal, this`acceptedProposal, this`learned
      ensures ok <==> old(proposalVotes).Some?
                      && !FanOutPanics(Counts(proposalVotes), Quorum(|acceptorMap|), learnerMap, Lookup(proposerMap, hostname))
      ensures old(proposalVotes).Some? ==> proposalVotes == Some(Tally(old(proposalVotes).value, prop))
      ensures old(proposalVotes).None? ==> proposalVotes == None
      ensures AcceptorState(minProposal, acceptedProposal) == if ok && isAcceptor then Accept(old(AcceptorState(minProposal, acceptedProposal)), prop) else old(AcceptorState(minProposal, acceptedProposal))
      ensures learned == if ok && isLearner then old(learned) + [prop] else old(learned)
      ensures !ok ==> outbox == old(outbox)
      ensures ok ==> |outbox| >= |old(outbox)| && outbox[..|old(outbox)|] == old(outbox)
      ensures ok ==> forall m :: multiset(outbox[|old(outbox)|..])[m]
                              == FanOutCount(Counts(proposalVotes), Quorum(|acceptorMap|), learnerMap, Lookup(proposerMap, hostname), m)
                               + (if isAcceptor && m == Reply(old(AcceptorState(minProposal, acceptedProposal)), prop) then 1 else 0)
    {
      ok := ReceivesAcceptor(prop, peerName);
      if ok {
        ghost var mid := outbox;
        ghost var votes, threshold, own := Counts(proposalVotes), Quorum(|acceptorMap|), Lookup(proposerMap, hostname);
        ghost var answer := Reply(AcceptorState(minProposal, acceptedProposal), prop);
        Respond(prop, peerName);
        CombineCounts(old(outbox), mid, outbox, true, votes, threshold, learnerMap, own, isAcceptor, answer);
      }
    }

    /** The acceptor and learner branches of `receiveValue`, in that order. */
    method Respond(prop: Proposal, peerName: string)
      modifies this`minProposal, this`acceptedProposal, this`outbox, this`learned
      ensures AcceptorState(minProposal, acceptedProposal) == if isAcceptor then Accept(old(AcceptorState(minProposal, acceptedProposal)), prop) else old(AcceptorState(minProposal, acceptedProposal))
      ensures learned == if isLearner then old(learned) + [prop] else old(learned)
      ensures outbox == old(outbox) + if isAcceptor then [Reply(old(AcceptorState(minProposal, acceptedProposal)), prop)] else []
    {
      if isAcceptor {
        Accepting(prop, peerName);
      }
      if isLearner {
        AcceptFromProposer(prop, peerName);
      }
    }
  }

  /**
   * The sends of `prepare`, over every acceptor peer in some order: `p` to the peer once
   * per entry of its number list that occurs in `nums`.
   */
  method PrepareSends(acceptors: map<string, seq<int>>, nums: seq<int>, p: Proposal)
    returns (sent: seq<Message>)
    ensures forall m :: multiset(sent)[m] == PrepareCount(acceptors, nums, p, m)
  {
    sent := [];
    var todo := acceptors.Keys;
    ghost var done: set<string> := {};
    while todo != {}
      invariant todo + done == acceptors.Keys && todo !! done
      invariant forall m :: multiset(sent)[m] == if m.to in done then PrepareCount(acceptors, nums, p, m) else 0
      decreases todo
    {
      var peer :| peer in todo;
      var more := PeerSends(peer, acceptors[peer], nums, p);
      sent := sent + more;
      todo := todo - {peer};
      done := done + {peer};
    }
  }

  /** The inner loop of `prepare`, for one acceptor peer and its number list `vals`. */
  method PeerSends(peer: string, vals: seq<int>, nums: seq<int>, p: Proposal)
    returns (sent: seq<Message>)
    ensures forall m :: multiset(sent)[m] == if m == Send(peer, p) then MatchCount(vals, nums) else 0
  {
    sent := [];
    for j := 0 to |vals|
      invariant forall m :: multiset(sent)[m] == if m == Send(peer, p) then MatchCount(vals[..j], nums) else 0
    {
      assert vals[..j + 1][..j] == vals[..j];
      var found := ContainsNumber(nums, vals[j]);
      if found {
        sent := sent + [Send(peer, p)];
      }
    }
    assert vals[..|vals|] == vals;
  }

  /** The map updates `gethosts` makes for one line, over the state it updates. */
  method AddLine(line: string, pm0: map<string, seq<int>>, am0: map<string, seq<int>>,
                 lm0: map<string, seq<int>>, pn0: seq<int>)
    returns (pm: map<string, seq<int>>, am: map<string, seq<int>>, lm: map<string, seq<int>>,
             pn: seq<int>, ok: bool)
    ensures ok == ParseLine(line).complete
    ensures Tables(pm, am, lm, pn) == AddLineTo(Tables(pm0, am0, lm0, pn0), line)
  {
    var parts := Split(line, ':');
    if |parts| < 2 {
      // parts[1] is out of range
      assert ParseLine(line).tokens == [];
      return pm0, am0, lm0, pn0, false;
    }
    var roles := Split(parts[1], ',');
    assert ParseLine(line) == LineParse(parts[0], roles[..FirstEmpty(roles)], FirstEmpty(roles) == |roles|);
    pm, am, lm, pn, ok := AddRoles(roles, parts[0], pm0, am0, lm0, pn0);
  }

  /**
   * The token loop of `gethosts` on one line's role tokens, over the state it updates.
   * It stops with `ok == false` at the first empty token, where `r[len(r)-1]` panics.
   */
  method AddRoles(roles: seq<string>, peerName: string, pm0: map<string, seq<int>>,
                  am0: map<string, seq<int>>, lm0: map<string, seq<int>>, pn0: seq<int>)
    returns (pm: map<string, seq<int>>, am: map<string, seq<int>>, lm: map<string, seq<int>>,
             pn: seq<int>, ok: bool)
    ensures var n := FirstEmpty(roles);
              && ok == (n == |roles|)
              && pm == Extend(pm0, peerName, NumbersFor(roles[..n], Proposer))
              && am == Extend(am0, peerName, NumbersFor(roles[..n], Acceptor))
              && lm == Extend(lm0, peerName, NumbersFor(roles[..n], Learner))
              && pn == GrowAll(pn0, roles[..n])
  {
    pm, am, lm, pn := pm0, am0, lm0, pn0;
    var i := 0;
    while i < |roles|
      invariant 0 <= i <= |roles| && i <= FirstEmpty(roles)
      invariant NonEmptyTokens(roles[..i])
      invariant pm == Extend(pm0, peerName, NumbersFor(roles[..i], Proposer))
      invariant am == Extend(am0, peerName, NumbersFor(roles[..i], Acceptor))
      invariant lm == Extend(lm0, peerName, NumbersFor(roles[..i], Learner))
      invariant pn == GrowAll(pn0, roles[..i])
    {
      var r := roles[i];
      if |r| == 0 {
        FirstEmptyAt(roles, i);
        return pm, am, lm, pn, false;
      }
      FirstEmptyPast(roles, i);
      pm, am, lm, pn := AddToken(roles, i, peerName, pm0, am0, lm0, pn0, pm, am, lm, pn);
      i := i + 1;
    }
    assert roles[..i] == roles;
    ok := true;
  }

  /**
   * One pass of the token loop of `gethosts`, for the nonempty token `roles[i]`: the
   * `processNumbers` loop and then the role switch, as one more token of each summary.
   */
  method AddToken(roles: seq<string>, i: nat, peerName: string, pm0: map<string, seq<int>>,
                  am0: map<string, seq<int>>, lm0: map<string, seq<int>>, pn0: seq<int>,
                  pm: map<string, seq<int>>, am: map<string, seq<int>>, lm: map<string, seq<int>>,
                  pn: seq<int>)
    returns (pm': map<string, seq<int>>, am': map<string, seq<int>>, lm': map<string, seq<int>>,
             pn': seq<int>)
    requires i < |roles| && roles[i] != "" && NonEmptyTokens(roles[..i])
    requires pm == Extend(pm0, peerName, NumbersFor(roles[..i], Proposer))
    requires am == Extend(am0, peerName, NumbersFor(roles[..i], Acceptor))
    requires lm == Extend(lm0, peerName, NumbersFor(roles[..i], Learner))
    requires pn == GrowAll(pn0, roles[..i])
    ensures NonEmptyTokens(roles[..i + 1])
    ensures pm' == Extend(pm0, peerName, NumbersFor(roles[..i + 1], Proposer))
    ensures am' == Extend(am0, peerName, NumbersFor(roles[..i + 1], Acceptor))
    ensures lm' == Extend(lm0, peerName, NumbersFor(roles[..i + 1], Learner))
    ensures pn' == GrowAll(pn0, roles[..i + 1])
  {
    assert NonEmptyTokens(roles[..i + 1]) by {
      assert forall k | 0 <= k < i :: roles[..i + 1][k] == roles[..i][k];
    }
    pn' := GrowNumbers(pn, RoleNumber(roles[i]));
    GrowStepOf(roles, i, pn0);
    pm', am', lm' := AddRole(roles[i], peerName, pm, am, lm);
    RoleStep(roles, i, pm0, peerName, Proposer);
    RoleStep(roles, i, am0, peerName, Acceptor);
    RoleStep(roles, i, lm0, peerName, Learner);
  }

  /**
   * The `processNumbers` loop for one role number: ranging over the slice as it was
   * when the loop began, it re-appends every entry that differs from `roleNumber`.
   */
  method GrowNumbers(pn0: seq<int>, roleNumber: int) returns (pn: seq<int>)
    ensures pn == pn0 + Others(pn0, roleNumber)
    ensures |pn| >= |pn0| && pn[..|pn0|] == pn0
    ensures forall k :: |pn0| <= k < |pn| ==> pn[k] != roleNumber
  {
    pn := pn0;
    for j := 0 to |pn0|
      invariant pn == pn0 + Others(pn0[..j], roleNumber)
    {
      assert pn0[..j + 1][..j] == pn0[..j];
      if pn0[j] != roleNumber {
        pn := pn + [pn0[j]];
      }
    }
    assert pn0[..|pn0|] == pn0;
  }

  /** What the proposer part and then the acceptor part of `receiveValue` send, together. */
  lemma CombineCounts(before: seq<Message>, mid: seq<Message>, after: seq<Message>, proposer: bool,
                      votes: map<Proposal, int>, threshold: int, learners: map<string, seq<int>>, own: seq<int>,
                      acceptor: bool, answer: Message)
    requires |mid| >= |before| && mid[..|before|] == before
    requires forall m :: multiset(mid[|before|..])[m]
                      == if proposer then FanOutCount(votes, threshold, learners, own, m) else 0
    requires after == mid + (if acceptor then [answer] else [])
    ensures |after| >= |before| && after[..|before|] == before
    ensures forall m :: multiset(after[|before|..])[m]
                     == (if proposer then FanOutCount(votes, threshold, learners, own, m) else 0)
                      + (if acceptor && m == answer then 1 else 0)
  {
    var reply := if acceptor then [answer] else [];
    assert after[|before|..] == mid[|before|..] + reply;
  }

  /**
   * The key loop of `receives_acceptor`: every key of `votes` at or above `threshold`
   * goes to the learner peers holding `own[0]`. Returns false where Go panics.
   */
  method FanOut(votes: map<Proposal, int>, threshold: int, learners: map<string, seq<int>>, own: seq<int>)
    returns (sent: seq<Message>, ok: bool)
    ensures ok <==> !FanOutPanics(votes, threshold, learners, own)
    ensures ok ==> forall m :: multiset(sent)[m] == FanOutCount(votes, threshold, learners, own, m)
  {
    sent := [];
    var keys := votes.Keys;
    ok := true;
    ghost var done: set<Proposal> := {};
    ghost var decided := DecidedKeys(votes, threshold);
    while keys != {}
      invariant keys + done == votes.Keys && keys !! done
      invariant SentFor(sent, done, votes, threshold, learners, own)
      invariant Quiet(done, decided, learners, own)
      decreases keys
    {
      var k :| k in keys;
      sent, ok := FanOutStep(votes, threshold, learners, own, k, sent, done, decided);
      if !ok {
        return [], false;
      }
      keys := keys - {k};
      done := done + {k};
    }
    NoPanic(votes, threshold, learners, own, done, decided);
  }

  /** The keys of `votes` that reach `threshold`. */
  ghost function DecidedKeys(votes: map<Proposal, int>, threshold: int): set<Proposal> {
    set k | k in votes && Decided(votes, threshold, k)
  }

  /** No key handled so far panicked: with a learner and no own number, none was decided. */
  ghost predicate Quiet(done: set<Proposal>, decided: set<Proposal>, learners: map<string, seq<int>>, own: seq<int>) {
    |learners| > 0 && |own| == 0 ==> done !! decided
  }

  /** One pass of the key loop, with what it keeps of the loop's invariant. */
  method FanOutStep(votes: map<Proposal, int>, threshold: int, learners: map<string, seq<int>>, own: seq<int>,
                    k: Proposal, sent: seq<Message>, ghost done: set<Proposal>, ghost decided: set<Proposal>)
    returns (after: seq<Message>, ok: bool)
    requires k in votes && k !in done
    requires decided == DecidedKeys(votes, threshold)
    requires SentFor(sent, done, votes, threshold, learners, own)
    requires Quiet(done, decided, learners, own)
    ensures !ok ==> FanOutPanics(votes, threshold, learners, own)
    ensures ok ==> SentFor(after, done + {k}, votes, threshold, learners, own)
    ensures ok ==> Quiet(done + {k}, decided, learners, own)
  {
    var more;
    more, ok := FanOutKey(votes, threshold, learners, own, k);
    if !ok {
      assert Decided(votes, threshold, k);
      return sent, false;
    }
    SentForKey(sent, more, done, k, votes, threshold, learners, own);
    assert k in decided <==> Decided(votes, threshold, k);
    after := sent + more;
  }

  lemma NoPanic(votes: map<Proposal, int>, threshold: int, learners: map<string, seq<int>>, own: seq<int>,
                done: set<Proposal>, decided: set<Proposal>)
    requires done == votes.Keys
    requires decided == DecidedKeys(votes, threshold)
    requires Quiet(done, decided, learners, own)
    ensures !FanOutPanics(votes, threshold, learners, own)
  {
    forall k | k in votes
      ensures !(Decided(votes, threshold, k) && |learners| > 0 && |own| == 0)
    {
      assert k in done;
    }
  }

  /** One key of the key loop of `receives_acceptor`: a decided key goes to the learners. */
  method FanOutKey(votes: map<Proposal, int>, threshold: int, learners: map<string, seq<int>>,
                   own: seq<int>, k: Proposal) returns (more: seq<Message>, ok: bool)
    requires k in votes
    ensures ok <==> !(Decided(votes, threshold, k) && |learners| > 0 && |own| == 0)
    ensures ok && !Decided(votes, threshold, k) ==> more == []
    ensures ok && Decided(votes, threshold, k) ==>
              forall m :: multiset(more)[m]
                       == if m.proposal == k && m.to in learners && |own| > 0 && own[0] in learners[m.to] then 1 else 0
  {
    more, ok := [], true;
    if votes[k] >= threshold {
      more, ok := NotifyLearners(k, learners, own);
    }
  }

  /** `sent` holds, for the keys in `done`, exactly the sends the fan-out makes. */
  ghost predicate SentFor(sent: seq<Message>, done: set<Proposal>, votes: map<Proposal, int>, threshold: int,
                          learners: map<string, seq<int>>, own: seq<int>) {
    forall m :: multiset(sent)[m] == if m.proposal in done then FanOutCount(votes, threshold, learners, own, m) else 0
  }

  lemma SentForKey(sent: seq<Message>, more: seq<Message>, done: set<Proposal>, k: Proposal,
                   votes: map<Proposal, int>, threshold: int, learners: map<string, seq<int>>, own: seq<int>)
    requires k !in done
    requires SentFor(sent, done, votes, threshold, learners, own)
    requires !Decided(votes, threshold, k) ==> more == []
    requires Decided(votes, threshold, k) ==>
               forall m :: multiset(more)[m]
                        == if m.proposal == k && m.to in learners && |own| > 0 && own[0] in learners[m.to] then 1 else 0
    ensures SentFor(sent + more, done + {k}, votes, threshold, learners, own)
  {
    forall m
      ensures multiset(sent + more)[m]
           == if m.proposal in done + {k} then FanOutCount(votes, threshold, learners, own, m) else 0
    {
      assert multiset(sent + more)[m] == multiset(sent)[m] + multiset(more)[m];
    }
  }

  /**
   * The learner loop of `receives_acceptor` for one decided key `k`: `k` goes, through
   * `send_learners`, to every learner peer whose numbers hold `own[0]`. Returns false
   * where Go panics: there is a learner peer and `own` is empty.
   */
  method NotifyLearners(k: Proposal, learners: map<string, seq<int>>, own: seq<int>)
    returns (sent: seq<Message>, ok: bool)
    ensures ok <==> |learners| == 0 || |own| > 0
    ensures ok ==> forall m :: multiset(sent)[m]
                            == if m.proposal == k && m.to in learners && |own| > 0 && own[0] in learners[m.to] then 1 else 0
  {
    sent := [];
    var peers := learners.Keys;
    ghost var done: set<string> := {};
    while peers != {}
      invariant peers + done == learners.Keys && peers !! done
      invariant done != {} ==> |own| > 0
      invariant |own| > 0 ==> LearnerSends(sent, k, done, learners, own[0])
      invariant |own| == 0 ==> sent == []
      decreases peers
    {
      var peer :| peer in peers;
      if |own| == 0 {
        // proposerMap[hostname][0] is out of range
        assert |learners.Keys| > 0;
        return [], false;
      }
      var found := ContainsNumber(learners[peer], own[0]);
      LearnerStep(sent, k, done, peer, learners, own[0], found);
      if found {
        sent := sent + [Send(peer, k)];
      }
      peers := peers - {peer};
      done := done + {peer};
    }
    assert done == learners.Keys;
    ok := true;
  }

  /** `sent` holds `k` once for each peer in `done` whose numbers hold `first`. */
  ghost predicate LearnerSends(sent: seq<Message>, k: Proposal, done: set<string>,
                               learners: map<string, seq<int>>, first: int) {
    forall m :: multiset(sent)[m]
             == if m.proposal == k && m.to in done && m.to in learners && first in learners[m.to] then 1 else 0
  }

  lemma LearnerStep(sent: seq<Message>, k: Proposal, done: set<string>, peer: string,
                    learners: map<string, seq<int>>, first: int, found: bool)
    requires peer !in done && peer in learners && found == (first in learners[peer])
    requires LearnerSends(sent, k, done, learners, first)
    ensures LearnerSends(sent + (if found then [Send(peer, k)] else []), k, done + {peer}, learners, first)
  {
    var more := if found then [Send(peer, k)] else [];
    forall m
      ensures multiset(sent + more)[m]
           == if m.proposal == k && m.to in done + {peer} && m.to in learners && first in learners[m.to] then 1 else 0
    {
      assert multiset(sent + more)[m] == multiset(sent)[m] + multiset(more)[m];
    }
  }

  lemma LinesStep(t: Tables, host: string, lines: seq<string>, i: nat)
    requires i < |lines|
    ensures AddLines(t, lines[..i + 1]) == AddLineTo(AddLines(t, lines[..i]), lines[i])
    ensures forall f :: SetRoles(f, host, lines[..i + 1]) == SetRole(SetRoles(f, host, lines[..i]), host, lines[i])
  {
    assert lines[..i + 1][..i] == lines[..i];
    assert lines[..i + 1][i] == lines[i];
  }

  lemma FirstEmptyPast(tokens: seq<string>, i: nat)
    requires i < |tokens| && i <= FirstEmpty(tokens) && tokens[i] != ""
    ensures i + 1 <= FirstEmpty(tokens)
  {
  }

  lemma FirstEmptyAt(tokens: seq<string>, i: nat)
    requires i < |tokens| && NonEmptyTokens(tokens[..i]) && tokens[i] == ""
    ensures FirstEmpty(tokens) == i
  {
    assert forall k | 0 <= k < i :: tokens[..i][k] == tokens[k];
  }

  /**
   * The role switch of `gethosts` for one nonempty token: the number joins the map of
   * the first role keyword the token contains, under the peer's name.
   */
  method AddRole(r: string, peerName: string, pm0: map<string, seq<int>>,
                 am0: map<string, seq<int>>, lm0: map<string, seq<int>>)
    returns (pm: map<string, seq<int>>, am: map<string, seq<int>>, lm: map<string, seq<int>>)
    requires |r| > 0
    ensures pm == Append(pm0, peerName, r, Proposer)
    ensures am == Append(am0, peerName, r, Acceptor)
    ensures lm == Append(lm0, peerName, r, Learner)
  {
    pm, am, lm := pm0, am0, lm0;
    var roleNumber := RoleNumber(r);
    if Contains(r, "proposer") {
      pm := pm[peerName := Lookup(pm, peerName) + [roleNumber]];
    } else if Contains(r, "acceptor") {
      am := am[peerName := Lookup(am, peerName) + [roleNumber]];
    } else if Contains(r, "learner") {
      lm := lm[peerName := Lookup(lm, peerName) + [roleNumber]];
    }
  }

  /** `m` after the token `r`: its number appended under `peer` when `r` names `role`. */
  function Append(m: map<string, seq<int>>, peer: string, r: string, role: Role): map<string, seq<int>>
    requires |r| > 0
  {
    if RoleOf(r) == Some(role) then m[peer := Lookup(m, peer) + [RoleNumber(r)]] else m
  }

  lemma RoleStep(tokens: seq<string>, i: nat, m0: map<string, seq<int>>, peer: string, role: Role)
    requires i < |tokens| && NonEmptyTokens(tokens[..i + 1])
    ensures NonEmptyTokens(tokens[..i])
    ensures Append(Extend(m0, peer, NumbersFor(tokens[..i], role)), peer, tokens[i], role)
         == Extend(m0, peer, NumbersFor(tokens[..i + 1], role))
  {
    var t := tokens[..i + 1];
    assert t[..i] == tokens[..i];
    assert t[i] == tokens[i];
    assert NumbersFor(t, role) == NumbersFor(tokens[..i], role)
         + (if RoleOf(tokens[i]) == Some(role) then [RoleNumber(tokens[i])] else []);
    if RoleOf(tokens[i]) == Some(role) {
      ExtendSnoc(m0, peer, NumbersFor(tokens[..i], role), RoleNumber(tokens[i]));
    } else {
      assert NumbersFor(tokens[..i], role) + [] == NumbersFor(tokens[..i], role);
    }
  }

  lemma GrowStepOf(tokens: seq<string>, i: nat, pn: seq<int>)
    requires i < |tokens| && NonEmptyTokens(tokens[..i + 1])
    ensures NonEmptyTokens(tokens[..i])
    ensures GrowAll(pn, tokens[..i + 1]) == GrowStep(GrowAll(pn, tokens[..i]), RoleNumber(tokens[i]))
  {
    assert tokens[..i + 1][..i] == tokens[..i];
    assert tokens[..i + 1][i] == tokens[i];
  }
}
