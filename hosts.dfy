/**
 * The per-line part of `gethosts` (main.go:86-126) and `currentHostRole` (main.go:46-56):
 * a hosts line `name:tok1,tok2,...` adds each token's role number to the proposer,
 * acceptor or learner map under `name`. Opening and scanning the file is not modelled.
 */
module Hosts {
  import opened Proposals
  import opened Strings
  import Codec

  datatype Role = Proposer | Acceptor | Learner

  /**
   * The `switch` of `currentHostRole` and of the token loop in `gethosts`: the first of
   * "proposer", "acceptor", "learner" that occurs in `s`, in that priority order.
   */
  function RoleOf(s: string): (r: Option<Role>)
    ensures r == Some(Proposer) <==> Contains(s, "proposer")
    ensures r == Some(Acceptor) <==> !Contains(s, "proposer") && Contains(s, "acceptor")
    ensures r == Some(Learner) <==>
              !Contains(s, "proposer") && !Contains(s, "acceptor") && Contains(s, "learner")
    ensures r == None <==>
              !Contains(s, "proposer") && !Contains(s, "acceptor") && !Contains(s, "learner")
  {
    if Contains(s, "proposer") then Some(Proposer)
    else if Contains(s, "acceptor") then Some(Acceptor)
    else if Contains(s, "learner") then Some(Learner)
    else None
  }

  /**
   * `strconv.Atoi(string(r[len(r)-1]))` with its error ignored: the token's last
   * character read as a digit, and 0 when it is not one.
   */
  function RoleNumber(token: string): (n: int)
    requires |token| > 0
    ensures 0 <= n <= 9
    ensures Codec.IsDigit(token[|token| - 1]) ==> Codec.DigitChar(n) == token[|token| - 1]
    ensures !Codec.IsDigit(token[|token| - 1]) ==> n == 0
  {
    var c := token[|token| - 1];
    if Codec.IsDigit(c) then Codec.DigitValue(c) else 0
  }

  /**
   * What the token loop gets through on one line: the peer name (`parts[0]`), the
   * tokens handled before the loop stopped, and whether it reached the end. A line
   * without `:` stops at `parts[1]`; an empty token stops at `r[len(r)-1]`. Both are
   * index panics in Go.
   */
  datatype LineParse = LineParse(peer: string, tokens: seq<string>, complete: bool)

  /** The index of the first empty token, or the number of tokens. */
  function FirstEmpty(tokens: seq<string>): (n: nat)
    ensures n <= |tokens|
    ensures forall k :: 0 <= k < n ==> |tokens[k]| > 0
    ensures n < |tokens| ==> tokens[n] == ""
    decreases |tokens|
  {
    if |tokens| == 0 then 0
    else if tokens[0] == "" then 0
    else 1 + FirstEmpty(tokens[1..])
  }

  predicate NonEmptyTokens(tokens: seq<string>) {
    forall k :: 0 <= k < |tokens| ==> |tokens[k]| > 0
  }

  function ParseLine(line: string): (r: LineParse)
    ensures NonEmptyTokens(r.tokens)
    ensures ':' !in r.peer
  {
    var parts := Split(line, ':');
    if |parts| < 2 then LineParse(parts[0], [], false)
    else
      var roles := Split(parts[1], ',');
      var n := FirstEmpty(roles);
      LineParse(parts[0], roles[..n], n == |roles|)
  }

  /** The role numbers of the tokens naming `role`, in line order. */
  function NumbersFor(tokens: seq<string>, role: Role): (ns: seq<int>)
    requires NonEmptyTokens(tokens)
    ensures |ns| <= |tokens|
    decreases |tokens|
  {
    if |tokens| == 0 then []
    else
      var last := tokens[|tokens| - 1];
      NumbersFor(tokens[..|tokens| - 1], role) + (if RoleOf(last) == Some(role) then [RoleNumber(last)] else [])
  }

  /** A role map entry, with Go's nil slice for a missing key. */
  function Lookup(m: map<string, seq<int>>, key: string): (r: seq<int>)
    ensures key in m ==> r == m[key]
    ensures key !in m ==> r == []
  {
    if key in m then m[key] else []
  }

  /** `m[key] = append(m[key], nums...)`: a key appears only once something is appended. */
  function Extend(m: map<string, seq<int>>, key: string, nums: seq<int>): (r: map<string, seq<int>>)
    ensures r.Keys == if nums == [] then m.Keys else m.Keys + {key}
    ensures forall k :: k in m && k != key ==> r[k] == m[k]
    ensures nums != [] ==> r[key] == Lookup(m, key) + nums
    ensures nums == [] ==> r == m
  {
    if nums == [] then m else m[key := Lookup(m, key) + nums]
  }

  lemma ExtendSnoc(m: map<string, seq<int>>, key: string, nums: seq<int>, x: int)
    ensures Extend(m, key, nums + [x])
         == Extend(m, key, nums)[key := Lookup(Extend(m, key, nums), key) + [x]]
  {
    if nums == [] {
      assert nums + [x] == [x];
    } else {
      assert Lookup(m, key) + (nums + [x]) == (Lookup(m, key) + nums) + [x];
    }
  }

  /**
   * One pass of the `processNumbers` loop (main.go:111-116): ranging over the slice as it
   * was, and appending every element that differs from `roleNumber`.
   */
  function GrowStep(pn: seq<int>, roleNumber: int): seq<int> {
    pn + Others(pn, roleNumber)
  }

  /** The elements of `pn` that differ from `x`, in order. */
  function Others(pn: seq<int>, x: int): (r: seq<int>)
    ensures |r| <= |pn|
    ensures forall k :: 0 <= k < |r| ==> r[k] != x
    decreases |pn|
  {
    if |pn| == 0 then []
    else Others(pn[..|pn| - 1], x) + (if pn[|pn| - 1] != x then [pn[|pn| - 1]] else [])
  }

  /** `Others` keeps every element that differs from `x`, as often as it occurs in `pn`. */
  lemma {:induction false} OthersKeepsRest(pn: seq<int>, x: int)
    ensures forall y :: y != x ==> multiset(Others(pn, x))[y] == multiset(pn)[y]
    decreases |pn|
  {
    if |pn| > 0 {
      OthersKeepsRest(pn[..|pn| - 1], x);
      assert pn == pn[..|pn| - 1] + [pn[|pn| - 1]];
    }
  }

  /** The `processNumbers` loop run for each token of a line in turn. */
  function GrowAll(pn: seq<int>, tokens: seq<string>): seq<int>
    requires NonEmptyTokens(tokens)
    decreases |tokens|
  {
    if |tokens| == 0 then pn
    else GrowStep(GrowAll(pn, tokens[..|tokens| - 1]), RoleNumber(tokens[|tokens| - 1]))
  }

  /**
   * Starting from the empty global slice, the loop has nothing to range over, so
   * `processNumbers` never receives an element.
   */
  lemma {:induction false} ProcessNumbersStayEmpty(tokens: seq<string>)
    requires NonEmptyTokens(tokens)
    ensures GrowAll([], tokens) == []
    decreases |tokens|
  {
    if |tokens| > 0 {
      ProcessNumbersStayEmpty(tokens[..|tokens| - 1]);
    }
  }

  // ---------------------------------------------------------------------------
  // Whole files

  /** The three role maps and the global `processNumbers` slice that `gethosts` fills. */
  datatype Tables = Tables(proposers: map<string, seq<int>>, acceptors: map<string, seq<int>>,
                           learners: map<string, seq<int>>, numbers: seq<int>)

  /** One line's contribution: its handled tokens' numbers, under its peer name. */
  function AddLineTo(t: Tables, line: string): Tables {
    var lp := ParseLine(line);
    Tables(Extend(t.proposers, lp.peer, NumbersFor(lp.tokens, Proposer)),
           Extend(t.acceptors, lp.peer, NumbersFor(lp.tokens, Acceptor)),
           Extend(t.learners, lp.peer, NumbersFor(lp.tokens, Learner)),
           GrowAll(t.numbers, lp.tokens))
  }

  /** The lines' contributions, in file order. */
  function AddLines(t: Tables, lines: seq<string>): Tables
    decreases |lines|
  {
    if |lines| == 0 then t else AddLineTo(AddLines(t, lines[..|lines| - 1]), lines[|lines| - 1])
  }

  /** The index of the first line the token loop does not get through, or the number of lines. */
  function FirstIncomplete(lines: seq<string>): (n: nat)
    ensures n <= |lines|
    ensures forall k :: 0 <= k < n ==> ParseLine(lines[k]).complete
    ensures n < |lines| ==> !ParseLine(lines[n]).complete
    decreases |lines|
  {
    if |lines| == 0 then 0
    else if !ParseLine(lines[0]).complete then 0
    else 1 + FirstIncomplete(lines[1..])
  }

  /** The lines `gethosts` reads: all of them, or up to and including the one that panics. */
  function Handled(lines: seq<string>): (h: seq<string>)
    ensures |h| <= |lines| && h == lines[..|h|]
    ensures FirstIncomplete(lines) == |lines| ==> h == lines
    ensures FirstIncomplete(lines) < |lines| ==> |h| == FirstIncomplete(lines) + 1
  {
    var n := FirstIncomplete(lines);
    if n < |lines| then lines[..n + 1] else lines
  }

  /** The host's three role flags. */
  datatype Flags = Flags(proposer: bool, acceptor: bool, learner: bool)

  /** `currentHostRole`: the flag of the line's first role keyword is set, and only that one. */
  function RoleFlags(f: Flags, line: string): (r: Flags)
    ensures r.proposer == (f.proposer || RoleOf(line) == Some(Proposer))
    ensures r.acceptor == (f.acceptor || RoleOf(line) == Some(Acceptor))
    ensures r.learner == (f.learner || RoleOf(line) == Some(Learner))
  {
    match RoleOf(line)
    case Some(Proposer) => f.(proposer := true)
    case Some(Acceptor) => f.(acceptor := true)
    case Some(Learner) => f.(learner := true)
    case None => f
  }

  /** The line loop calls `currentHostRole` only on a line that names `host`. */
  function SetRole(f: Flags, host: string, line: string): Flags {
    if Contains(line, host) then RoleFlags(f, line) else f
  }

  /** The flags after `currentHostRole` has seen `lines`, in order. */
  function SetRoles(f: Flags, host: string, lines: seq<string>): Flags
    decreases |lines|
  {
    if |lines| == 0 then f else SetRole(SetRoles(f, host, lines[..|lines| - 1]), host, lines[|lines| - 1])
  }

  /** The proposer flag ends up set exactly when it was set before or some line naming the host claims it. */
  lemma {:induction false} SetRolesProposer(f: Flags, host: string, lines: seq<string>)
    ensures SetRoles(f, host, lines).proposer
        <==> f.proposer || exists k :: 0 <= k < |lines| && Contains(lines[k], host) && RoleOf(lines[k]) == Some(Proposer)
    decreases |lines|
  {
    if |lines| > 0 {
      var last := |lines| - 1;
      SetRolesProposer(f, host, lines[..last]);
      forall k | 0 <= k < last
        ensures lines[..last][k] == lines[k]
      {
      }
    }
  }

  /**
   * `currentHostRole` takes only the first keyword of the whole line: a line naming the
   * host as "proposer" and "acceptor" makes it a proposer and not an acceptor.
   */
  lemma OnlyFirstRole(f: Flags, host: string, line: string)
    requires Contains(line, host) && Contains(line, "proposer")
    ensures SetRole(f, host, line) == f.(proposer := true)
  {
  }

  /**
   * The whole hosts file leaves an empty `processNumbers` empty: the quirk of the
   * per-token loop carries over from line to line.
   */
  lemma {:induction false} NumbersStayEmpty(t: Tables, lines: seq<string>)
    requires t.numbers == []
    ensures AddLines(t, lines).numbers == []
    decreases |lines|
  {
    if |lines| > 0 {
      NumbersStayEmpty(t, lines[..|lines| - 1]);
      ProcessNumbersStayEmpty(ParseLine(lines[|lines| - 1]).tokens);
    }
  }

  /** Only the peer names of the lines become keys of a role map. */
  lemma {:induction false} AddLinesKeys(t: Tables, lines: seq<string>, peer: string)
    requires peer in AddLines(t, lines).proposers || peer in AddLines(t, lines).acceptors
             || peer in AddLines(t, lines).learners
    ensures || peer in t.proposers || peer in t.acceptors || peer in t.learners
            || exists k :: 0 <= k < |lines| && ParseLine(lines[k]).peer == peer
    decreases |lines|
  {
    if |lines| > 0 {
      var last := |lines| - 1;
      var u := AddLines(t, lines[..last]);
      if peer in u.proposers || peer in u.acceptors || peer in u.learners {
        AddLinesKeys(t, lines[..last], peer);
        if !(peer in t.proposers || peer in t.acceptors || peer in t.learners) {
          var k :| 0 <= k < last && ParseLine(lines[..last][k]).peer == peer;
          assert lines[..last][k] == lines[k];
        }
      } else {
        assert ParseLine(lines[last]).peer == peer;
      }
    }
  }

  // ---------------------------------------------------------------------------
  // Well-formed lines

  function RoleName(r: Role): string {
    match r
    case Proposer => "proposer"
    case Acceptor => "acceptor"
    case Learner => "learner"
  }

  /** One `role<digit>` assignment of a hosts line. */
  datatype Assignment = Assignment(role: Role, number: int)

  predicate ValidAssignments(asg: seq<Assignment>) {
    forall k :: 0 <= k < |asg| ==> 0 <= asg[k].number <= 9
  }

  function Token(a: Assignment): (t: string)
    requires 0 <= a.number <= 9
  {
    RoleName(a.role) + [Codec.DigitChar(a.number)]
  }

  function Tokens(asg: seq<Assignment>): (ts: seq<string>)
    requires ValidAssignments(asg)
    ensures |ts| == |asg|
    ensures forall k :: 0 <= k < |asg| ==> ts[k] == Token(asg[k])
    decreases |asg|
  {
    if |asg| == 0 then [] else Tokens(asg[..|asg| - 1]) + [Token(asg[|asg| - 1])]
  }

  /** The numbers assigned to `role`, in order. */
  function AssignedNumbers(asg: seq<Assignment>, role: Role): seq<int>
    decreases |asg|
  {
    if |asg| == 0 then []
    else
      var last := asg[|asg| - 1];
      AssignedNumbers(asg[..|asg| - 1], role) + (if last.role == role then [last.number] else [])
  }

  /** A well-formed hosts line `peer:role<d>,role<d>,...`. */
  function FormatLine(peer: string, asg: seq<Assignment>): string
    requires ValidAssignments(asg)
  {
    peer + [':'] + Join(Tokens(asg), ',')
  }

  lemma NotContainsByFirst(s: string, sub: string)
    requires |sub| > 0
    requires forall i :: 0 <= i && i + |sub| <= |s| ==> s[i] != sub[0]
    ensures !Contains(s, sub)
  {
    forall i | 0 <= i ensures !OccursAt(s, sub, i) {
      if i + |sub| <= |s| {
        assert s[i..i + |sub|][0] == s[i];
      }
    }
  }

  lemma RoleOfToken(a: Assignment)
    requires 0 <= a.number <= 9
    ensures RoleOf(Token(a)) == Some(a.role)
    ensures RoleNumber(Token(a)) == a.number
  {
    var t := Token(a);
    var d := Codec.DigitChar(a.number);
    match a.role
    case Proposer =>
      assert OccursAt(t, "proposer", 0);
    case Acceptor =>
      assert t == "acceptor" + [d];
      NotContainsByFirst(t, "proposer");
      assert OccursAt(t, "acceptor", 0);
    case Learner =>
      assert t == "learner" + [d];
      NotContainsByFirst(t, "proposer");
      NotContainsByFirst(t, "acceptor");
      assert OccursAt(t, "learner", 0);
  }

  lemma {:induction false} NumbersForTokens(asg: seq<Assignment>, role: Role)
    requires ValidAssignments(asg)
    ensures NonEmptyTokens(Tokens(asg))
    ensures NumbersFor(Tokens(asg), role) == AssignedNumbers(asg, role)
    decreases |asg|
  {
    if |asg| > 0 {
      var init := asg[..|asg| - 1];
      var last := asg[|asg| - 1];
      ValidPrefix(asg);
      NumbersForTokens(init, role);
      RoleOfToken(last);
      NumbersForLastToken(asg, role);
    }
  }

  lemma ValidPrefix(asg: seq<Assignment>)
    requires |asg| > 0 && ValidAssignments(asg)
    ensures ValidAssignments(asg[..|asg| - 1])
  {
    assert forall k :: 0 <= k < |asg| - 1 ==> asg[..|asg| - 1][k] == asg[k];
  }

  /** The tokens of a line split as those before its last assignment and the last one's token. */
  lemma NumbersForLastToken(asg: seq<Assignment>, role: Role)
    requires |asg| > 0 && ValidAssignments(asg) && ValidAssignments(asg[..|asg| - 1])
    ensures Tokens(asg) == Tokens(asg[..|asg| - 1]) + [Token(asg[|asg| - 1])]
    ensures NumbersFor(Tokens(asg), role) == NumbersFor(Tokens(asg[..|asg| - 1]), role)
          + (if RoleOf(Token(asg[|asg| - 1])) == Some(role) then [RoleNumber(Token(asg[|asg| - 1]))] else [])
  {
    var ts := Tokens(asg);
    assert ts == Tokens(asg[..|asg| - 1]) + [Token(asg[|asg| - 1])];
    assert ts[..|ts| - 1] == Tokens(asg[..|asg| - 1]);
  }

  /**
   * Parsing a well-formed line gives back its peer name and its tokens, and under each
   * role exactly the numbers the line assigns to that role, in order.
   */
  lemma ParseFormatLine(peer: string, asg: seq<Assignment>)
    requires ':' !in peer
    requires |asg| >= 1 && ValidAssignments(asg)
    ensures ParseLine(FormatLine(peer, asg)) == LineParse(peer, Tokens(asg), true)
    ensures forall role :: NumbersFor(Tokens(asg), role) == AssignedNumbers(asg, role)
  {
    SplitFormatLine(peer, asg);
    NumbersForTokens(asg, Proposer);
    ParseSplitLine(FormatLine(peer, asg), peer, Join(Tokens(asg), ','), Tokens(asg));
    forall role ensures NumbersFor(Tokens(asg), role) == AssignedNumbers(asg, role) {
      NumbersForTokens(asg, role);
    }
  }

  lemma ParseSplitLine(line: string, peer: string, body: string, ts: seq<string>)
    requires Split(line, ':') == [peer, body] && Split(body, ',') == ts
    requires NonEmptyTokens(ts)
    ensures ParseLine(line) == LineParse(peer, ts, true)
  {
    assert FirstEmpty(ts) == |ts|;
    assert ts[..|ts|] == ts;
  }

  lemma SplitFormatLine(peer: string, asg: seq<Assignment>)
    requires ':' !in peer
    requires |asg| >= 1 && ValidAssignments(asg)
    ensures Split(FormatLine(peer, asg), ':') == [peer, Join(Tokens(asg), ',')]
    ensures Split(Join(Tokens(asg), ','), ',') == Tokens(asg)
  {
    var ts := Tokens(asg);
    TokensAvoid(asg);
    var body := Join(ts, ',');
    JoinAvoids(ts, ',', ':');
    assert Join([peer, body], ':') == FormatLine(peer, asg);
    SplitJoin([peer, body], ':');
    SplitJoin(ts, ',');
  }

  lemma TokensAvoid(asg: seq<Assignment>)
    requires ValidAssignments(asg)
    ensures forall k :: 0 <= k < |Tokens(asg)| ==> ',' !in Tokens(asg)[k] && ':' !in Tokens(asg)[k]
  {
    var ts := Tokens(asg);
    forall k | 0 <= k < |ts| ensures ',' !in ts[k] && ':' !in ts[k] {
      TokenHasNoSeparator(asg[k]);
    }
  }

  lemma TokenHasNoSeparator(a: Assignment)
    requires 0 <= a.number <= 9
    ensures ',' !in Token(a) && ':' !in Token(a) && |Token(a)| > 0
  {
  }

  lemma {:induction false} JoinAvoids(parts: seq<string>, sep: char, c: char)
    requires sep != c
    requires forall k :: 0 <= k < |parts| ==> c !in parts[k]
    ensures c !in Join(parts, sep)
    decreases |parts|
  {
    if |parts| > 1 {
      JoinAvoids(parts[1..], sep, c);
    }
  }
}
