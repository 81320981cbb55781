/** String helpers of the configuration parser: trimming, searching, quotes and numbers. */
module YamlText {
  import opened Common

  /** std::isspace in the C locale. */
  predicate IsSpace(c: char) {
    c == ' ' || c == '\t' || c == '\n' || c == '\U{0B}' || c == '\U{0C}' || c == '\r'
  }

  predicate IsDigit(c: char) {
    '0' <= c <= '9'
  }

  // ------------------------------------------------------------------ trimming

  function TrimStart(s: string): string {
    if s != "" && IsSpace(s[0]) then TrimStart(s[1..]) else s
  }

  function TrimEnd(s: string): string {
    if s != "" && IsSpace(s[|s| - 1]) then TrimEnd(s[..|s| - 1]) else s
  }

  function Trim(s: string): string {
    TrimEnd(TrimStart(s))
  }

  /** Nothing to trim at either end. */
  predicate Tight(s: string) {
    s != "" && !IsSpace(s[0]) && !IsSpace(s[|s| - 1])
  }

  lemma {:induction false} TrimStartIndex(s: string, i: nat)
    requires i <= |s| && forall k :: 0 <= k < i ==> IsSpace(s[k])
    ensures TrimStart(s) == TrimStart(s[i..])
  {
    if i == 0 {
      assert s[0..] == s;
    } else {
      TrimStartIndex(s[1..], i - 1);
      assert s[1..][i - 1..] == s[i..];
    }
  }

  lemma {:induction false} TrimEndIndex(s: string, i: nat)
    requires i <= |s| && forall k :: i <= k < |s| ==> IsSpace(s[k])
    ensures TrimEnd(s) == TrimEnd(s[..i])
  {
    if i == |s| {
      assert s[..i] == s;
    } else {
      TrimEndIndex(s[..|s| - 1], i);
      assert s[..|s| - 1][..i] == s[..i];
    }
  }

  /** trim, as the two index loops of the code. */
  method TrimLoops(s: string) returns (r: string)
    ensures r == Trim(s)
  {
    var start := 0;
    while start < |s| && IsSpace(s[start])
      invariant start <= |s| && forall k :: 0 <= k < start ==> IsSpace(s[k])
    {
      start := start + 1;
    }
    var end := |s|;
    while end > start && IsSpace(s[end - 1])
      invariant start <= end <= |s| && forall k :: end <= k < |s| ==> IsSpace(s[k])
    {
      end := end - 1;
    }
    r := s[start..end];
    TrimStartIndex(s, start);
    var rest := s[start..];
    assert TrimStart(rest) == rest;
    assert forall k :: end - start <= k < |rest| ==> IsSpace(rest[k]) by {
      assert forall k :: end - start <= k < |rest| ==> rest[k] == s[start + k];
    }
    TrimEndIndex(rest, end - start);
    assert rest[..end - start] == r;
    assert TrimEnd(r) == r;
  }

  lemma {:induction false} TrimIndented(indent: string, s: string)
    requires Tight(s) && forall k :: 0 <= k < |indent| ==> IsSpace(indent[k])
    ensures Trim(indent + s) == s
  {
    var t := indent + s;
    TrimStartIndex(t, |indent|);
    assert t[|indent|..] == s;
  }

  lemma {:induction false} TrimKeepsOut(s: string, c: char)
    requires c !in s
    ensures c !in Trim(s)
  {
    TrimStartKeepsOut(s, c);
    TrimEndKeepsOut(TrimStart(s), c);
  }

  lemma {:induction false} TrimStartKeepsOut(s: string, c: char)
    requires c !in s
    ensures c !in TrimStart(s)
  {
    if s != "" && IsSpace(s[0]) {
      assert c !in s[1..];
      TrimStartKeepsOut(s[1..], c);
    }
  }

  lemma {:induction false} TrimEndKeepsOut(s: string, c: char)
    requires c !in s
    ensures c !in TrimEnd(s)
  {
    if s != "" && IsSpace(s[|s| - 1]) {
      assert c !in s[..|s| - 1];
      TrimEndKeepsOut(s[..|s| - 1], c);
    }
  }

  // ------------------------------------------------------------------ searching and quotes

  /** Index of the first c, or the length. */
  function Find(s: string, c: char): (i: nat)
    ensures i <= |s| && c !in s[..i]
    ensures i < |s| ==> s[i] == c
    ensures i == |s| ==> c !in s
  {
    if s == "" then 0
    else if s[0] == c then 0
    else
      var i := Find(s[1..], c) + 1;
      assert s[..i] == [s[0]] + s[1..][..i - 1];
      assert s == [s[0]] + s[1..];
      i
  }

  lemma FindIs(s: string, c: char, i: nat)
    requires i < |s| && c !in s[..i] && s[i] == c
    ensures Find(s, c) == i
  {
    if Find(s, c) != i {
      assert false;
    }
  }

  function StripQuotes(v: string): string {
    if |v| >= 2 && v[0] == '"' && v[|v| - 1] == '"' then v[1..|v| - 1] else v
  }

  // ------------------------------------------------------------------ numbers

  const ULONG_MAX: nat := 0xFFFF_FFFF_FFFF_FFFF
  const LONG_MAX: nat := 0x7FFF_FFFF_FFFF_FFFF

  /** The leading digits of s and their value. */
  function DigitCount(s: string): (n: nat)
    ensures n <= |s|
  {
    if s != "" && IsDigit(s[0]) then 1 + DigitCount(s[1..]) else 0
  }

  function DigitValue(c: char): nat
    requires IsDigit(c)
  {
    c as int - '0' as int
  }

  function DigitsValue(s: string): nat
    requires forall k :: 0 <= k < |s| ==> IsDigit(s[k])
  {
    if s == "" then 0 else DigitsValue(s[..|s| - 1]) * 10 + DigitValue(s[|s| - 1])
  }

  lemma {:induction false} LeadingDigits(s: string)
    ensures forall k :: 0 <= k < DigitCount(s) ==> IsDigit(s[k])
  {
    if s != "" && IsDigit(s[0]) {
      LeadingDigits(s[1..]);
      forall k | 0 <= k < DigitCount(s) ensures IsDigit(s[k]) {
        if k > 0 {
          assert s[k] == s[1..][k - 1];
        }
      }
    }
  }

  /** strtoul and strtol with base 10: white space, a sign, digits; the rest is ignored. */
  function Magnitude(v: string): Option<(bool, nat)> {
    var t := TrimStart(v);
    var negative := t != "" && t[0] == '-';
    var signed := negative || (t != "" && t[0] == '+');
    var digits := if signed then t[1..] else t;
    var n := DigitCount(digits);
    LeadingDigits(digits);
    if n == 0 then None else Some((negative, DigitsValue(digits[..n])))
  }

  /** std::stoul with 64-bit unsigned long; a minus sign wraps around. */
  function Stoul(v: string): Option<nat> {
    match Magnitude(v)
    case None => None
    case Some((negative, m)) =>
      if m > ULONG_MAX then None else if negative && m > 0 then Some(ULONG_MAX + 1 - m) else Some(m)
  }

  /** std::stol with 64-bit long. */
  function Stol(v: string): Option<int> {
    match Magnitude(v)
    case None => None
    case Some((negative, m)) =>
      if negative then (if m > LONG_MAX + 1 then None else Some(0 - m))
      else if m > LONG_MAX then None else Some(m)
  }

  function Digit(d: nat): char
    requires d < 10
  {
    ('0' as int + d) as char
  }

  /** Decimal digits of n. */
  function Decimal(n: nat): (s: string)
    ensures s != "" && forall k :: 0 <= k < |s| ==> IsDigit(s[k])
  {
    if n < 10 then [Digit(n)] else Decimal(n / 10) + [Digit(n % 10)]
  }

  function SignedDecimal(n: int): string {
    if n < 0 then "-" + Decimal(-n) else Decimal(n)
  }

  lemma {:induction false} DecimalValue(n: nat)
    ensures DigitsValue(Decimal(n)) == n
  {
    if n >= 10 {
      DecimalValue(n / 10);
      var s := Decimal(n);
      assert s[..|s| - 1] == Decimal(n / 10);
    } else {
      assert Decimal(n)[..0] == "";
    }
  }

  lemma {:induction false} AllDigits(s: string)
    requires forall k :: 0 <= k < |s| ==> IsDigit(s[k])
    ensures DigitCount(s) == |s|
  {
    if s != "" {
      AllDigits(s[1..]);
    }
  }

  lemma {:induction false} MagnitudeOfDecimal(n: nat)
    ensures Magnitude(Decimal(n)) == Some((false, n))
    ensures Magnitude("-" + Decimal(n)) == Some((true, n))
  {
    var s := Decimal(n);
    assert IsDigit(s[0]);
    AllDigits(s);
    DecimalValue(n);
    hide Decimal;
    assert s[..|s|] == s;
    assert TrimStart(s) == s;
    var t := "-" + s;
    assert t[1..] == s && TrimStart(t) == t;
  }

  lemma {:induction false} StoulDecimal(n: nat)
    requires n <= ULONG_MAX
    ensures Stoul(Decimal(n)) == Some(n)
  {
    StoulExact(n);
  }

  lemma {:induction false} StolSignedDecimal(n: int)
    requires 0 - LONG_MAX <= n <= LONG_MAX
    ensures Stol(SignedDecimal(n)) == Some(n)
  {
    StolExact(n);
  }

  /** All natural numbers, with and without a minus sign. */
  lemma {:induction false} StoulExact(n: nat)
    ensures Stoul(Decimal(n)) == if n < 0x1_0000_0000_0000_0000 then Some(n) else None
    ensures Stoul("-" + Decimal(n))
         == if n < 0x1_0000_0000_0000_0000 then Some((0x1_0000_0000_0000_0000 - n) % 0x1_0000_0000_0000_0000) else None
  {
    hide Magnitude, Decimal;
    MagnitudeOfDecimal(n);
  }

  /** All integers. */
  lemma {:induction false} StolExact(n: int)
    ensures Stol(SignedDecimal(n))
         == if -0x8000_0000_0000_0000 <= n < 0x8000_0000_0000_0000 then Some(n) else None
  {
    hide Magnitude, Decimal;
    MagnitudeOfDecimal(if n < 0 then -n else n);
  }

  lemma {:induction false} SpacesSkipped(s: string) returns (i: nat)
    ensures i <= |s| && TrimStart(s) == s[i..] && (forall k :: 0 <= k < i ==> IsSpace(s[k]))
    ensures i < |s| ==> !IsSpace(s[i])
  {
    if s != "" && IsSpace(s[0]) {
      i := SpacesSkipped(s[1..]);
      assert s[1..][i..] == s[i + 1..];
      assert forall k :: 0 < k < i + 1 ==> s[k] == s[1..][k - 1];
      i := i + 1;
    } else {
      i := 0;
    }
  }

  predicate NumberAt(v: string, i: nat, j: nat) {
    && i <= j < |v| && (forall k :: 0 <= k < i ==> IsSpace(v[k]))
    && (j == i || (j == i + 1 && (v[i] == '+' || v[i] == '-')))
    && '0' <= v[j] <= '9'
  }

  /** White space, perhaps a sign, and a digit. */
  ghost predicate BeginsWithNumber(v: string) {
    exists i: nat, j: nat :: NumberAt(v, i, j)
  }

  /** There is a number to read exactly when the text begins with one. */
  lemma NumberExactly(v: string)
    ensures Magnitude(v).Some? <==> BeginsWithNumber(v)
  {
    var i := SpacesSkipped(v);
    var t := v[i..];
    var signed := t != "" && (t[0] == '+' || t[0] == '-');
    var j := if signed then i + 1 else i;
    var digits := if signed then t[1..] else t;
    assert digits == v[j..];
    assert Magnitude(v).Some? <==> digits != "" && IsDigit(digits[0]);
    hide Magnitude, TrimStart;
    assert NumberAt(v, i, j) <==> digits != "" && IsDigit(digits[0]);
    if BeginsWithNumber(v) {
      var i', j' :| NumberAt(v, i', j');
    }
  }

  /** And nothing after its digits matters. */
  lemma {:induction false} JunkIgnored(w: string, sign: string, n: nat, junk: string)
    requires (forall c <- w :: IsSpace(c)) && sign in {"", "+", "-"} && (junk != "" ==> !('0' <= junk[0] <= '9'))
    ensures Magnitude(w + (sign + (Decimal(n) + junk))) == Some((sign == "-", n))
  {
    var d := Decimal(n);
    var t := sign + (d + junk);
    var v := w + t;
    assert IsDigit(d[0]);
    assert t[0] == if sign == "" then d[0] else sign[0];
    assert forall k :: 0 <= k < |w| ==> v[k] == w[k] && w[k] in w;
    TrimStartIndex(v, |w|);
    assert v[|w|..] == t && TrimStart(t) == t;
    hide Decimal;
    var digits := if sign == "" then t else t[1..];
    assert digits == d + junk;
    DigitsThenJunk(d, junk);
    assert digits[..|d|] == d;
    DecimalValue(n);
  }

  lemma {:induction false} DigitsThenJunk(d: string, junk: string)
    requires (forall k :: 0 <= k < |d| ==> IsDigit(d[k])) && (junk != "" ==> !IsDigit(junk[0]))
    ensures DigitCount(d + junk) == |d|
  {
    if d == "" {
      assert d + junk == junk;
    } else {
      assert (d + junk)[1..] == d[1..] + junk;
      DigitsThenJunk(d[1..], junk);
    }
  }
}
