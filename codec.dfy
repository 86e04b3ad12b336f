/**
 * The wire format of a proposal: `proposalToBytes` renders `"%d,%c,%s"` and
 * `bytesToProposal` reads it back with `fmt.Sscanf`, which fills the fields from left to
 * right and stops at the first mismatch, leaving the fields it did not reach at zero.
 * The model works on characters; the UTF-8 conversion to and from bytes is not modelled.
 */
module Codec {
  import opened Proposals
  import opened Strings

  predicate IsDigit(c: char) { '0' <= c <= '9' }

  predicate AllDigits(s: string) { forall k :: 0 <= k < |s| ==> IsDigit(s[k]) }

  function DigitChar(d: int): (c: char)
    requires 0 <= d <= 9
    ensures IsDigit(c)
  {
    ('0' as int + d) as char
  }

  function DigitValue(c: char): (d: int)
    requires IsDigit(c)
    ensures 0 <= d <= 9
  {
    c as int - '0' as int
  }

  /** The decimal digits of `n`, most significant first: what `%d` prints for `n >= 0`. */
  function NatDigits(n: nat): (s: string)
    ensures |s| >= 1 && AllDigits(s)
    ensures s[0] == '0' <==> n == 0
    ensures n < 10 <==> |s| == 1
    decreases n
  {
    if n < 10 then [DigitChar(n)] else NatDigits(n / 10) + [DigitChar(n % 10)]
  }

  /** `%d`: a minus sign for negative numbers, then the digits of the magnitude. */
  function FormatInt(i: int): string {
    if i < 0 then ['-'] + NatDigits(-i) else NatDigits(i)
  }

  /** `proposalToBytes`: `"%d,%c,%s"` applied to id, value and serverId. */
  function Encode(p: Proposal): string {
    FormatInt(p.id as int) + [',', p.value, ','] + p.serverId
  }

  /** The number a run of decimal digits denotes. */
  function DigitsValue(ds: string): nat
    requires AllDigits(ds)
    decreases |ds|
  {
    if |ds| == 0 then 0 else DigitsValue(ds[..|ds| - 1]) * 10 + DigitValue(ds[|ds| - 1])
  }

  /** The length of the longest prefix of `s` made of decimal digits. */
  function DigitRun(s: string): (n: nat)
    ensures n <= |s| && AllDigits(s[..n])
    ensures n < |s| ==> !IsDigit(s[n])
    decreases |s|
  {
    if |s| > 0 && IsDigit(s[0]) then
      var n := 1 + DigitRun(s[1..]);
      assert s[..n] == [s[0]] + s[1..][..n - 1];
      n
    else 0
  }

  /** The length of the longest prefix of `s` without blanks: the word `%s` reads. */
  function WordRun(s: string): (n: nat)
    ensures n <= |s| && NoSpace(s[..n])
    ensures n < |s| ==> IsSpace(s[n])
    decreases |s|
  {
    if |s| > 0 && !IsSpace(s[0]) then 1 + WordRun(s[1..]) else 0
  }

  function SignLength(s: string): (n: nat)
    ensures n <= |s|
  {
    if |s| > 0 && (s[0] == '+' || s[0] == '-') then 1 else 0
  }

  /** The outcome of scanning an integer: its value and how many characters it took. */
  datatype Scanned = NoInt | IntOf(value: int, length: nat)

  /**
   * What `%d` consumes from the front of `s`: an optional sign and at least one digit.
   * The result is the value read and the number of characters consumed, or NoInt when
   * no digit follows the sign.
   */
  function ScanInt(s: string): (r: Scanned)
    ensures r.IntOf? ==> 0 < r.length <= |s|
  {
    var sign := SignLength(s);
    var n := DigitRun(s[sign..]);
    if n == 0 then NoInt
    else
      var mag: int := DigitsValue(s[sign..][..n]);
      var v: int := if sign == 1 && s[0] == '-' then -mag else mag;
      IntOf(v, sign + n)
  }

  /**
   * `bytesToProposal`: a decimal integer, `,`, one character, `,`, then a word without
   * blanks. A mismatch stops the scan; the fields after it keep their zero value. An id
   * outside the 64-bit range is a scan error raised before the id is stored.
   */
  function Decode(s: string): (p: Proposal)
    ensures NoSpace(p.serverId)
    ensures ScanInt(s).NoInt? ==> p == Zero
  {
    match ScanInt(s)
    case NoInt => Zero
    case IntOf(v, k) =>
      if !InInt64(v) then Zero
      else
        var r := s[k..];
        if |r| < 2 || r[0] != ',' then Proposal(v as int64, '\0', "")
        else if |r| < 3 || r[2] != ',' then Proposal(v as int64, r[1], "")
        else
          var w := r[3..];
          Proposal(v as int64, r[1], w[..WordRun(w)])
  }

  // ---------------------------------------------------------------------------
  // Decimal digits

  lemma {:induction false} DigitsValueOfNatDigits(n: nat)
    ensures DigitsValue(NatDigits(n)) == n
    decreases n
  {
    var s := NatDigits(n);
    if n >= 10 {
      DigitsValueOfNatDigits(n / 10);
      assert s[..|s| - 1] == NatDigits(n / 10);
    }
  }

  /** A run of digits with no leading zero denotes a positive number. */
  lemma {:induction false} DigitsValuePositive(ds: string)
    requires |ds| >= 1 && AllDigits(ds) && ds[0] != '0'
    ensures DigitsValue(ds) >= 1
    decreases |ds|
  {
    if |ds| > 1 {
      DigitsValuePositive(ds[..|ds| - 1]);
    }
  }

  /** A run of digits without a redundant leading zero is how `%d` prints its value. */
  lemma {:induction false} NatDigitsOfDigitsValue(ds: string)
    requires |ds| >= 1 && AllDigits(ds) && (ds[0] != '0' || |ds| == 1)
    ensures NatDigits(DigitsValue(ds)) == ds
    decreases |ds|
  {
    if |ds| > 1 {
      var init := ds[..|ds| - 1];
      DigitsValuePositive(init);
      NatDigitsOfDigitsValue(init);
      var n := DigitsValue(ds);
      assert n / 10 == DigitsValue(init) && n % 10 == DigitValue(ds[|ds| - 1]);
      assert ds == init + [ds[|ds| - 1]];
    }
  }

  lemma {:induction false} DigitRunOfConcat(a: string, b: string)
    requires AllDigits(a)
    requires |b| == 0 || !IsDigit(b[0])
    ensures DigitRun(a + b) == |a|
    decreases |a|
  {
    if |a| > 0 {
      assert (a + b)[1..] == a[1..] + b;
      DigitRunOfConcat(a[1..], b);
    }
  }

  lemma {:induction false} WordRunOfConcat(a: string, b: string)
    requires NoSpace(a)
    requires |b| == 0 || IsSpace(b[0])
    ensures WordRun(a + b) == |a|
    decreases |a|
  {
    if |a| > 0 {
      assert (a + b)[1..] == a[1..] + b;
      WordRunOfConcat(a[1..], b);
    }
  }

  /** `%d` reads back exactly what `%d` printed, when a non-digit follows it. */
  lemma ScanFormatInt(i: int, rest: string)
    requires |rest| == 0 || !IsDigit(rest[0])
    ensures ScanInt(FormatInt(i) + rest) == IntOf(i, |FormatInt(i)|)
  {
    if i < 0 {
      ScanFormatNegative(-i, rest);
    } else {
      ScanFormatNatural(i, rest);
    }
  }

  lemma ScanFormatNatural(n: nat, rest: string)
    requires |rest| == 0 || !IsDigit(rest[0])
    ensures ScanInt(NatDigits(n) + rest) == IntOf(n, |NatDigits(n)|)
  {
    ScanNonNegative(NatDigits(n), rest);
    DigitsValueOfNatDigits(n);
  }

  lemma ScanFormatNegative(n: nat, rest: string)
    requires n > 0
    requires |rest| == 0 || !IsDigit(rest[0])
    ensures ScanInt(['-'] + NatDigits(n) + rest) == IntOf(0 - n as int, 1 + |NatDigits(n)|)
  {
    var ds := NatDigits(n);
    assert ['-'] + ds + rest == ['-'] + (ds + rest);
    ScanNegative(ds, rest);
    DigitsValueOfNatDigits(n);
  }

  lemma ScanNonNegative(ds: string, rest: string)
    requires |ds| >= 1 && AllDigits(ds)
    requires |rest| == 0 || !IsDigit(rest[0])
    ensures ScanInt(ds + rest) == IntOf(DigitsValue(ds), |ds|)
  {
    var s := ds + rest;
    assert s[0] == ds[0] && IsDigit(ds[0]);
    assert SignLength(s) == 0;
    DigitRunOfConcat(ds, rest);
    assert s[0..] == s;
    assert s[..|ds|] == ds;
    assert DigitRun(s[0..]) == |ds|;
    assert DigitsValue(s[0..][..|ds|]) == DigitsValue(ds);
    assert ScanInt(s).IntOf?;
    assert ScanInt(s).length == |ds|;
    assert ScanInt(s).value == DigitsValue(ds);
  }

  lemma ScanNegative(ds: string, rest: string)
    requires |ds| >= 1 && AllDigits(ds)
    requires |rest| == 0 || !IsDigit(rest[0])
    ensures ScanInt(['-'] + (ds + rest)) == IntOf(0 - DigitsValue(ds), 1 + |ds|)
  {
    var s := ['-'] + (ds + rest);
    var t := ds + rest;
    assert SignLength(s) == 1;
    assert s[1..] == t;
    DigitRunOfConcat(ds, rest);
    assert t[..|ds|] == ds;
    assert DigitRun(s[1..]) == |ds|;
    assert DigitsValue(s[1..][..|ds|]) == DigitsValue(ds);
    assert ScanInt(s).IntOf?;
    assert ScanInt(s).length == 1 + |ds|;
    assert ScanInt(s).value == 0 - DigitsValue(ds);
  }

  // ---------------------------------------------------------------------------
  // Round trips

  /** Decoding an encoding gives the proposal back, unless its serverId holds a blank. */
  lemma DecodeEncode(p: Proposal)
    requires NoSpace(p.serverId)
    ensures Decode(Encode(p)) == p
  {
    DecodeIgnoresTrailing(p, "");
    assert Encode(p) + "" == Encode(p);
  }

  /** Past an in-range id followed by `,c,`, the serverId is the first word of the rest. */
  lemma DecodeFields(s: string, k: nat, v: int, c: char, w: string)
    requires ScanInt(s) == IntOf(v, k) && InInt64(v)
    requires k <= |s| && s[k..] == [',', c, ','] + w
    ensures Decode(s) == Proposal(v as int64, c, w[..WordRun(w)])
  {
    var r := s[k..];
    assert r[0] == ',' && r[1] == c && r[2] == ',';
    assert r[3..] == w;
  }

  /** The way `%d` would print the integer: no `+`, no redundant zero, no `-0`. */
  predicate CanonicalInt(t: string) {
    || (|t| >= 1 && AllDigits(t) && (t[0] != '0' || |t| == 1))
    || (|t| >= 2 && t[0] == '-' && AllDigits(t[1..]) && t[1] != '0')
  }

  /** A record exactly as `proposalToBytes` produces one. */
  predicate WellFormed(s: string) {
    match ScanInt(s)
    case NoInt => false
    case IntOf(v, k) =>
      && CanonicalInt(s[..k]) && InInt64(v)
      && k + 3 <= |s| && s[k] == ',' && s[k + 2] == ','
      && NoSpace(s[k + 3..])
  }

  lemma CanonicalFormat(s: string)
    requires ScanInt(s).IntOf?
    requires CanonicalInt(s[..ScanInt(s).length])
    ensures FormatInt(ScanInt(s).value) == s[..ScanInt(s).length]
  {
    var k := ScanInt(s).length;
    var t := s[..k];
    if t[0] == '-' {
      var ds := s[1..][..k - 1];
      assert ds == t[1..];
      DigitsValuePositive(ds);
      NatDigitsOfDigitsValue(ds);
      assert t == ['-'] + ds;
    } else {
      assert SignLength(s) == 0;
      NatDigitsOfDigitsValue(t);
    }
  }

  /** Encoding a well-formed record reproduces it character for character. */
  lemma EncodeDecode(s: string)
    requires WellFormed(s)
    ensures Encode(Decode(s)) == s
  {
    var v, k := ScanInt(s).value, ScanInt(s).length;
    var w := s[k + 3..];
    var p := Decode(s);
    assert p == Proposal(v as int64, s[k + 1], w) by {
      DecodeWellFormed(s);
    }
    assert FormatInt(p.id as int) == s[..k] by {
      CanonicalFormat(s);
    }
    Reassemble(s, k);
  }

  lemma Reassemble(s: string, k: nat)
    requires k + 3 <= |s|
    ensures s == s[..k] + [s[k], s[k + 1], s[k + 2]] + s[k + 3..]
  {
  }

  lemma DecodeWellFormed(s: string)
    requires WellFormed(s)
    ensures var v, k := ScanInt(s).value, ScanInt(s).length;
      Decode(s) == Proposal(v as int64, s[k + 1], s[k + 3..])
  {
    var k := ScanInt(s).length;
    var r := s[k..];
    var w := s[k + 3..];
    assert r[3..] == w;
    assert r[0] == ',' && r[2] == ',';
    WordRunOfConcat(w, "");
    assert w + "" == w;
    assert w[..WordRun(w)] == w;
  }

  // ---------------------------------------------------------------------------
  // Malformed input

  /** The scan stops after the id when no `,` follows it: value and serverId stay zero. */
  lemma DecodeStopsAfterId(id: int64, junk: string)
    requires |junk| == 0 || (junk[0] != ',' && !IsDigit(junk[0]))
    ensures Decode(FormatInt(id as int) + junk) == Proposal(id, '\0', "")
  {
    ScanFormatInt(id as int, junk);
    assert (FormatInt(id as int) + junk)[|FormatInt(id as int)|..] == junk;
  }

  /** A `,` with nothing after it also leaves value and serverId at zero. */
  lemma DecodeStopsAtEndAfterComma(id: int64)
    ensures Decode(FormatInt(id as int) + [',']) == Proposal(id, '\0', "")
  {
    ScanFormatInt(id as int, [',']);
    assert (FormatInt(id as int) + [','])[|FormatInt(id as int)|..] == [','];
  }

  /** The scan stops after the value when no second `,` follows it: serverId stays zero. */
  lemma DecodeStopsAfterValue(id: int64, c: char, junk: string)
    requires |junk| == 0 || junk[0] != ','
    ensures Decode(FormatInt(id as int) + [',', c] + junk) == Proposal(id, c, "")
  {
    var f := FormatInt(id as int);
    ScanFormatInt(id as int, [',', c] + junk);
    assert f + [',', c] + junk == f + ([',', c] + junk);
    assert (f + ([',', c] + junk))[|f|..] == [',', c] + junk;
  }

  /** Whatever follows the first blank after the serverId is ignored. */
  lemma DecodeIgnoresTrailing(p: Proposal, trailing: string)
    requires NoSpace(p.serverId)
    requires |trailing| == 0 || IsSpace(trailing[0])
    ensures Decode(Encode(p) + trailing) == p
  {
    var f := FormatInt(p.id as int);
    var w := p.serverId + trailing;
    var e := Encode(p) + trailing;
    assert e == f + ([',', p.value, ','] + w);
    ScanFormatInt(p.id as int, [',', p.value, ','] + w);
    assert e[|f|..] == [',', p.value, ','] + w;
    DecodeFields(e, |f|, p.id as int, p.value, w);
    WordRunOfConcat(p.serverId, trailing);
    assert w[..|p.serverId|] == p.serverId;
  }

  /** An id that does not fit in 64 bits is a scan error: nothing is stored. */
  lemma DecodeOverflowIsZero(i: int, rest: string)
    requires !InInt64(i)
    requires |rest| == 0 || !IsDigit(rest[0])
    ensures Decode(FormatInt(i) + rest) == Zero
  {
    ScanFormatInt(i, rest);
  }
}
