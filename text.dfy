/** The .NET string operations the credential codec relies on:
    String.Split on one character, Int32.ToString and Int32.TryParse
    (NumberStyles.Integer, invariant-culture signs). */
module Text {
  import opened Common

  /** Number of occurrences of d in s. */
  function Count(s: string, d: char): nat {
    if |s| == 0 then 0 else (if s[0] == d then 1 else 0) + Count(s[1..], d)
  }

  /** String.Split(d): the pieces between occurrences of d, empty pieces
      included, so there is always one more piece than separators. */
  function Split(s: string, d: char): (parts: seq<string>)
    ensures |parts| == Count(s, d) + 1
    ensures forall i :: 0 <= i < |parts| ==> d !in parts[i]
    decreases |s|
  {
    if |s| == 0 then [""]
    else
      var rest := Split(s[1..], d);
      if s[0] == d then [""] + rest
      else [[s[0]] + rest[0]] + rest[1..]
  }

  /** String.Join(d, parts): the pieces with d between neighbours. */
  function Join(parts: seq<string>, d: char): string
    requires |parts| >= 1
    decreases |parts|
  {
    if |parts| == 1 then parts[0] else parts[0] + [d] + Join(parts[1..], d)
  }

  /** Joining the pieces of a split gives back the string. */
  lemma {:induction false} JoinSplit(s: string, d: char)
    ensures Join(Split(s, d), d) == s
    decreases |s|
  {
    if |s| > 0 {
      JoinSplit(s[1..], d);
      var rest := Split(s[1..], d);
      if s[0] != d && |rest| > 1 {
        assert Split(s, d)[1..] == rest[1..];
      }
    }
  }

  /** A string without d is one piece. */
  lemma {:induction false} SplitWithout(a: string, d: char)
    requires d !in a
    ensures Split(a, d) == [a]
    decreases |a|
  {
    if |a| > 0 {
      SplitWithout(a[1..], d);
      assert a == [a[0]] + a[1..];
    }
  }

  /** A piece without d followed by d starts a split with that piece. */
  lemma {:induction false} SplitCons(a: string, d: char, t: string)
    requires d !in a
    ensures Split(a + [d] + t, d) == [a] + Split(t, d)
    decreases |a|
  {
    var s := a + [d] + t;
    if |a| == 0 {
      assert s[1..] == t;
    } else {
      assert s[1..] == a[1..] + [d] + t;
      SplitCons(a[1..], d, t);
      assert [a[0]] + a[1..] == a;
    }
  }

  /** Splitting a join of pieces without d gives back the pieces. */
  lemma {:induction false} SplitJoin(parts: seq<string>, d: char)
    requires |parts| >= 1
    requires forall i :: 0 <= i < |parts| ==> d !in parts[i]
    ensures Split(Join(parts, d), d) == parts
    decreases |parts|
  {
    if |parts| == 1 {
      SplitWithout(parts[0], d);
    } else {
      SplitJoin(parts[1..], d);
      SplitCons(parts[0], d, Join(parts[1..], d));
      assert parts == [parts[0]] + parts[1..];
    }
  }

  predicate IsDigit(c: char) {
    '0' <= c <= '9'
  }

  function DigitChar(v: int): (c: char)
    requires 0 <= v < 10
    ensures IsDigit(c)
  {
    ('0' as int + v) as char
  }

  predicate AllDigits(s: string) {
    forall i :: 0 <= i < |s| ==> IsDigit(s[i])
  }

  /** The decimal numeral of n, without leading zeros. */
  function Digits(n: nat): (s: string)
    ensures |s| >= 1 && AllDigits(s)
  {
    if n < 10 then [DigitChar(n)] else Digits(n / 10) + [DigitChar(n % 10)]
  }

  /** The value of a decimal numeral, most significant digit first. */
  function ValueOfDigits(s: string): nat
    requires AllDigits(s)
  {
    if |s| == 0 then 0 else ValueOfDigits(s[..|s| - 1]) * 10 + (s[|s| - 1] as int - '0' as int)
  }

  lemma {:induction false} ValueOfDigitsOfDigits(n: nat)
    ensures ValueOfDigits(Digits(n)) == n
  {
    var s := Digits(n);
    if n >= 10 {
      ValueOfDigitsOfDigits(n / 10);
      assert s[..|s| - 1] == Digits(n / 10);
    }
  }

  /** Int32.ToString(): an optional '-' and the decimal digits. */
  function Int32ToString(n: Int32): string {
    if n < 0 then "-" + Digits(-(n as int)) else Digits(n)
  }

  /** The white space NumberStyles.AllowLeadingWhite/AllowTrailingWhite skip:
      U+0009 to U+000D and U+0020. */
  predicate IsNumberWhite(c: char) {
    '\t' <= c <= '\r' || c == ' '
  }

  function SkipWhite(s: string): (r: string)
    ensures |r| <= |s|
    ensures |r| > 0 ==> !IsNumberWhite(r[0])
  {
    if |s| > 0 && IsNumberWhite(s[0]) then SkipWhite(s[1..]) else s
  }

  /** Length of the run of digits at the start of s. */
  function LeadingDigits(s: string): (k: nat)
    ensures k <= |s| && AllDigits(s[..k])
    ensures k < |s| ==> !IsDigit(s[k])
  {
    if |s| > 0 && IsDigit(s[0]) then
      var k := LeadingDigits(s[1..]) + 1;
      assert s[..k] == [s[0]] + s[1..][..k - 1];
      k
    else 0
  }

  predicate AllNul(s: string) {
    forall i :: 0 <= i < |s| ==> s[i] == '\0'
  }

  /** Int32.TryParse(s, out n): optional white space, an optional '+' or '-',
      one or more digits, optional white space and trailing NUL characters,
      and a value in the Int32 range; None where TryParse returns false. */
  function TryParseInt32(s: string): Option<Int32> {
    var t := SkipWhite(s);
    var negative := |t| > 0 && t[0] == '-';
    var u := if |t| > 0 && (t[0] == '-' || t[0] == '+') then t[1..] else t;
    var k := LeadingDigits(u);
    if k == 0 || !AllNul(SkipWhite(u[k..])) then None
    else
      var magnitude := ValueOfDigits(u[..k]);
      var v: int := if negative then -(magnitude as int) else magnitude;
      if -0x8000_0000 <= v < 0x8000_0000 then Some(v) else None
  }

  lemma LeadingDigitsAll(s: string)
    requires AllDigits(s)
    ensures LeadingDigits(s) == |s|
    decreases |s|
  {
  }

  /** TryParse reads back what ToString writes. */
  lemma ParseInt32ToString(n: Int32)
    ensures TryParseInt32(Int32ToString(n)) == Some(n)
  {
    var m: nat := if n < 0 then -(n as int) else n;
    var ds := Digits(m);
    LeadingDigitsAll(ds);
    ValueOfDigitsOfDigits(m);
    assert ds[..|ds|] == ds;
    if n < 0 {
      assert ("-" + ds)[1..] == ds;
    }
  }

  /** The decimal form never contains the characters '.' or '='. */
  lemma Int32ToStringChars(n: Int32)
    ensures '.' !in Int32ToString(n) && '=' !in Int32ToString(n)
  {
  }

  /** Empty pieces count: "a..b" splits into three pieces. */
  lemma SplitKeepsEmptyPieces()
    ensures Split("a..b", '.') == ["a", "", "b"]
  {
    assert "a..b" == Join(["a", "", "b"], '.');
    SplitJoin(["a", "", "b"], '.');
  }

  /** The default iteration count is written "10000". */
  lemma TenThousandToString()
    ensures Int32ToString(10000) == "10000"
  {
  }
}
