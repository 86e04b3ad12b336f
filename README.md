# A verified model of the Paxos-style voter

The voter is one Go program (`main.go`). Each process reads a hosts file and takes on
one or more of three roles: proposer, acceptor and learner. The processes then exchange
proposals `{id, value, serverId}` over single-message TCP connections. This project models
the protocol logic of that program in Dafny and proves what its handlers guarantee.

- The package-level globals are the fields of the class `Voter.Peer`. These are the role
  flags, `minProposal`, `acceptedProposal`, `myProposal`, `proposalVotes`, the three role
  maps and `processNumbers`.
- Each handler is a method that runs as one atomic step.
- Every `sendValue(peer, p)` call appends `Send(peer, p)` to the field `outbox`.
- What the learner accepts is appended to `learned`.
- Go leaves the iteration order of a map open, so the sends of a fan-out are specified as
  a multiset. The ensures gives, for every message, how many copies were sent.
- A Go panic ends the process. It is modelled as a method returning `ok == false`.

The modules follow the program's parts:

| module | file | models |
|---|---|---|
| `Proposals` | proposals.dfy | the `proposal` struct with a 64-bit `id`, `minProposal + 1` with wrap-around, and messages |
| `Strings` | strings.dfy | the `strings.Contains` and `strings.Split` that the hosts parser uses |
| `Codec` | codec.dfy | `proposalToBytes` (the `"%d,%c,%s"` format) and `bytesToProposal` (the `fmt.Sscanf` read) |
| `Acceptor` | acceptor.dfy | the acceptor rule of `accepting` as a pure step, lifted to any sequence of proposals |
| `Votes` | votes.dfy | the quorum threshold, the vote tally, and how many copies of each message a fan-out sends |
| `Hosts` | hosts.dfy | one hosts line as role-map additions, and `currentHostRole`'s choice of flag |
| `Voter` | voter.dfy | the class `Peer` and the loops of `gethosts`, `prepare`, `contains` and `receives_acceptor` |

Behaviour of the code that the model keeps as written:

- The acceptor's reply goes to `prop.serverId`, the proposal's author, and not to the peer
  the connection came from. The reply carries the accepted proposal after the update. So a
  stale proposal gets back the earlier proposal with the higher id.
- The vote tally is keyed on the whole proposal, so `id`, `value` and `serverId` must all be
  equal. Writing into `proposalVotes` before `prepare` has made it is a nil-map panic.
- The fan-out looks up `proposerMap[hostname][0]` at every learner peer. It panics when a
  key has reached the quorum, a learner exists, and this host has no proposer number.
  Before that point nothing has been sent. A decided key is sent again on every later vote.
- `currentHostRole` sets only the flag of the first keyword on the whole line, with
  proposer first, then acceptor, then learner. It runs for every line that contains the
  hostname anywhere.
- The `processNumbers` loop ranges over the slice as it was when the loop began. It
  re-appends every element that differs from the role number and never appends the role
  number itself. Starting from the empty global, the slice stays empty. This is modelled
  as written and not corrected (`Hosts.ProcessNumbersStayEmpty`, `Hosts.NumbersStayEmpty`).
- The scan of `bytesToProposal` stops at the first mismatch. Fields before the mismatch keep
  the values read, and later fields stay at their zero value. So a malformed record is not
  reduced to the zero proposal. An id that does not fit in 64 bits is a scan error, and the
  whole proposal stays zero.
- An index out of range panics and ends the process. This happens on a hosts line without
  `:`, on an empty role token, and in the fan-out case above. The model returns
  `ok == false` there.
- Decisions go only to learners whose number list holds `proposerMap[hostname][0]`, the
  proposer's first number.

## Model

| member | source | states |
|---|---|---|
| Proposals.Succ | main.go:243-244 | `minProposal + 1` on Go's 64-bit `int` is two's-complement `+ 1`: the mathematical successor reduced into the signed 64-bit range |
| Strings.Contains | main.go:48-54 | true exactly when the keyword occurs at some position of the line |
| Strings.Split | main.go:94-102 | one piece more than there are separators, no piece holds a separator, and joining the pieces gives the line back |
| Strings.SplitJoin | main.go:94-102 | splitting a joined list of separator-free pieces gives the pieces back |
| Codec.Decode | main.go:172-176 | the serverId read never holds a blank, and a record without a leading integer decodes to the zero proposal |
| Codec.ScanFormatInt | main.go:168-174 | `%d` reads back exactly the integer `%d` printed, and its length, when a non-digit follows |
| Codec.DecodeEncode | main.go:167-176 | decoding the encoding of a proposal whose serverId has no blank gives the proposal back |
| Codec.EncodeDecode | main.go:167-176 | encoding a record in the exact `proposalToBytes` form reproduces it character for character |
| Codec.DecodeFields | main.go:174 | past an in-range id and `,c,`, the value is `c` and the serverId is the first word of the rest |
| Codec.DecodeStopsAfterId | main.go:174 | when no `,` follows the id, value and serverId stay zero and the id is kept |
| Codec.DecodeStopsAtEndAfterComma | main.go:174 | a record that ends right after the first `,` keeps only the id |
| Codec.DecodeStopsAfterValue | main.go:174 | when no second `,` follows the value, the serverId stays empty and id and value are kept |
| Codec.DecodeIgnoresTrailing | main.go:174 | whatever follows the first blank after the serverId does not change the decoded proposal |
| Codec.DecodeOverflowIsZero | main.go:173-175 | an id outside the 64-bit range leaves the whole proposal at its zero value |
| Acceptor.Accept | main.go:277-285 | `minProposal` never goes down, becomes either the old value or the proposal's id, and the accepted id stays equal to it |
| Acceptor.Reply | main.go:287-295 | the reply is addressed to the proposal's serverId and, from a consistent state, carries an id no smaller than the proposal's or the old `minProposal` |
| Acceptor.AcceptUpdate | main.go:277-285 | a higher id replaces both globals with the proposal, and any other id leaves the state unchanged |
| Acceptor.AcceptAllMin | main.go:277-285 | after any sequence of proposals, `minProposal` is the largest id seen, or the starting value |
| Acceptor.MinProposalNeverDecreases | main.go:277-283 | over any sequence of proposals, `minProposal` after a longer prefix is never smaller |
| Acceptor.InitialConsistent | main.go:27-31 | in the zero state the accepted proposal's id equals `minProposal` |
| Acceptor.AcceptAllConsistent | main.go:277-283 | from a consistent state, and so from the zero state, the accepted id always equals `minProposal` |
| Acceptor.AcceptAllAccepted | main.go:277-285 | the accepted proposal is the first one that carries the largest id, or the starting one when no id beats `minProposal` |
| Acceptor.IncreasingIdsAcceptLast | main.go:277-295 | with strictly increasing ids, the last proposal is accepted and a later stale sender gets it back |
| Acceptor.StaleProposalGetsAcceptedBack | main.go:277-295 | from any state, a proposal whose id is not higher changes nothing, and its author gets back the proposal accepted before |
| Votes.QuorumIsSmallestMajority | main.go:308 | `len(acceptorMap)/2+1` is a strict majority and the smallest one |
| Votes.QuorumExamples | main.go:308 | the threshold is 2 for 3 acceptors, 3 for 4 and 3 for 5 |
| Votes.QuorumsIntersect | main.go:308 | two sets of distinct acceptors that both reach the threshold share an acceptor; this is about the threshold arithmetic, since the tally counts replies |
| Votes.Tally | main.go:303 | the count of exactly the received proposal rises by one, starting from 0 if missing, and every other count is unchanged |
| Votes.DecidedStaysDecided | main.go:303-308 | for any tally, a key at or above the threshold stays there after another vote, so it is sent again |
| Votes.MatchCountExtremes | main.go:254-255 | the count of matching numbers is the list's length exactly when all match, and 0 exactly when none does |
| Hosts.RoleOf | main.go:47-56 | picks proposer, acceptor or learner by the first keyword present in priority order, or none; each case is an if-and-only-if |
| Hosts.RoleNumber | main.go:108 | a token's last character read as a digit, and 0 when it is not a digit |
| Hosts.FirstEmpty | main.go:105-108 | the tokens before it are non-empty, and the token at it is empty |
| Hosts.ParseLine | main.go:94-108 | the tokens the loop gets through are all non-empty, and the peer name holds no `:` |
| Hosts.Extend | main.go:120-125 | appending to a role-map entry adds the key only when something is appended, gives the entry the old list (nil when missing) followed by the new numbers, leaves the map as it was when nothing is appended, and leaves other keys alone |
| Hosts.Others | main.go:111-116 | the entries the `processNumbers` loop re-appends never equal the role number, and there are no more of them than the slice holds |
| Hosts.OthersKeepsRest | main.go:111-116 | the loop re-appends every entry that differs from the role number, as often as it occurs; with `Hosts.Others` this makes it exactly the filter |
| Hosts.ProcessNumbersStayEmpty | main.go:111-116 | starting from an empty `processNumbers`, the loops over a line's tokens never add an element |
| Hosts.NumbersStayEmpty | main.go:78-133 | over a whole hosts file, an empty `processNumbers` stays empty |
| Hosts.FirstIncomplete | main.go:94-108 | every line before it is parsed to the end, and the line at it is not |
| Hosts.Handled | main.go:78-133 | the file is read up to and including the first line that panics, or to the end |
| Hosts.RoleFlags | main.go:46-56 | each flag is set afterwards exactly when it was set before or is the line's first keyword |
| Hosts.SetRolesProposer | main.go:78-91 | the proposer flag ends up set exactly when it was set or some line naming the host has "proposer" as its first keyword |
| Hosts.OnlyFirstRole | main.go:46-56 | a line naming the host with "proposer" sets only the proposer flag, even if it also names "acceptor" |
| Hosts.AddLinesKeys | main.go:94-126 | only the peer names of the lines become keys of a role map |
| Hosts.ExtendSnoc | main.go:120-125 | appending numbers one at a time gives the same entry as appending them at once |
| Hosts.RoleOfToken | main.go:108-126 | a token `role<digit>` is classified as that role and numbered by that digit |
| Hosts.NumbersForTokens | main.go:105-126 | the numbers collected under a role are exactly those the tokens assign to it, in order |
| Hosts.ParseFormatLine | main.go:94-126 | a well-formed line `name:role<d>,...` parses completely, gives its peer name and tokens, and under each role exactly the numbers it assigns |
| Voter.ContainsNumber | main.go:263-270 | the linear search returns true exactly when the value occurs in the list |
| Voter.Peer.constructor | main.go:21-37 | every global starts at Go's zero value, with empty role maps and outbox |
| Voter.Peer.CurrentHostRole | main.go:46-56 | the flags become `RoleFlags` of the old flags: only the first keyword's flag is set |
| Voter.Peer.ReadHostsLine | main.go:86-126 | the flags are updated when the line names the host, the tables grow by the line's contribution, and the result says whether the line was parsed to the end |
| Voter.Peer.GetHosts | main.go:70-133 | fresh role maps, then every handled line in order; the result is false exactly when some line panics |
| Voter.AddLine | main.go:94-126 | the role maps and `processNumbers` after one line equal `AddLineTo` of the old ones |
| Voter.AddRoles | main.go:102-127 | each map gains, under the peer name, the numbers of the tokens before the first empty one; false exactly when an empty token stops the loop |
| Voter.AddToken | main.go:104-126 | one pass over a nonempty token: the `processNumbers` loop and the role switch each take one more token into their summaries |
| Voter.AddRole | main.go:108-126 | a token's number is appended to the map of its first role keyword and to no other map |
| Voter.GrowNumbers | main.go:111-116 | the slice keeps its old entries and gains exactly the old entries that differ from the role number |
| Voter.Peer.Prepare | main.go:242-261 | `myProposal` is `(minProposal+1, v, hostname)` and the tally is exactly `{myProposal: 0}`; old sends are kept and each new message is counted by `PrepareCount` |
| Voter.PrepareSends | main.go:253-260 | over all acceptor peers, `p` is sent to each peer once for every entry of its list that occurs in the proposer's numbers, and nothing else is sent |
| Voter.PeerSends | main.go:254-259 | for one acceptor peer, `p` is sent once for every matching entry of its list |
| Voter.Peer.Accepting | main.go:274-295 | the acceptor globals take the `Accept` step, and exactly one reply is appended |
| Voter.Peer.ReceivesAcceptor | main.go:300-329 | nil tally: a panic that changes nothing; otherwise the tally is updated, the call panics exactly when `FanOutPanics` holds, and the new sends are counted by `FanOutCount` |
| Voter.FanOut | main.go:307-321 | panics exactly when a decided key meets a learner and this host has no proposer number; otherwise each message is sent `FanOutCount` times |
| Voter.FanOutStep | main.go:307-320 | one key of the loop keeps the sent-so-far invariant, and a panic at it means the whole fan-out panics |
| Voter.FanOutKey | main.go:308-320 | a key below the threshold sends nothing, and a decided key goes once to each matching learner |
| Voter.NotifyLearners | main.go:311-317 | panics exactly when there is a learner peer and no proposer number; otherwise the key goes once to each learner whose list holds the first proposer number |
| Voter.Peer.AcceptFromProposer | main.go:332-336 | the learner records the proposal it received |
| Voter.Peer.ReceiveValue | main.go:219-237 | the decoded record goes to the proposer, then the acceptor, then the learner part. A proposer panic stops the others, and a nil tally stays nil. The sends are the fan-out's plus the acceptor's one reply |
| Voter.Peer.ReceiveAsProposer | main.go:221-237 | on a proposer host, the vote and fan-out, then the acceptor and learner parts if it did not panic |
| Voter.Peer.Respond | main.go:227-237 | the acceptor step and its reply when the host is an acceptor; the learner record when it is a learner |

## Left out

- TCP listening, dialling, reading and writing, reverse DNS in `listen`, and `os.Hostname`
  are network and operating-system I/O. The model uses a given hostname, lines and peer
  name, and the `outbox` in place of connections.
- The goroutine per connection and the unsynchronised sharing of globals are concurrency.
  Each handler is one atomic step.
- `main` is left out: flag parsing, the `time.Sleep` delays, turning the CLI value into a
  rune, `select {}`, and the call order of `gethosts`, `listen` and `prepare`. This is
  command-line plumbing.
- All `Fprintf` logging and `checkIfError` are left out, because they only produce output.
- Opening and scanning the hosts file is I/O. `GetHosts` takes the lines as a sequence.
- `hosts = append(hosts, line[0:5])` is left out, because the `hosts` slice is never read.
  Its panic on a line shorter than five characters is not modelled.
- The 1024-byte read buffer and the UTF-8 conversion between bytes and characters are left
  out. The codec works on characters.
- Codec.Decode: implements only the simplified grammar of `fmt.Sscanf`. That is an optional
  sign and digits, `,`, one character, `,`, then a word that ends at a blank. Skipping
  leading blanks, other spellings of integers and Sscanf's other error cases are not
  modelled.
- Vote counts are unbounded integers. Go's `int` would overflow only after 2^63 votes.
- Voter.Peer.ReceivesAcceptor: gives only how many times each message is sent, not their
  order. Go's map iteration order is unspecified.
- Voter.Peer.Prepare: gives only how many times each message is sent, not their order, for
  the same reason.
- The fan-out reads `proposerMap[hostname][0]` once per learner peer. The model reads the
  same value once, which is only a difference in evaluation.
