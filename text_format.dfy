/** Text renderings shared by the log writers: hexadecimal digits of a byte,
    decimal integers and separator-joined lists, each with the inverse a reader
    of the output would apply. A Dafny `char` stands for one C `char` (a byte). */
module TextFormat {
  import opened Wrappers

  /** The byte a C `char` holds: a char cast keeps the low eight bits. */
  function ByteOf(c: char): (b: nat)
    ensures b < 256
    ensures c as int < 256 ==> b == c as int
  {
    c as int % 256
  }

  const HexChars: string := "0123456789abcdef"

  function HexDigit(d: nat): char
    requires d < 16
  {
    HexChars[d]
  }

  /** The value of a lower-case hexadecimal digit, the inverse of HexDigit. */
  function HexValue(c: char): Option<nat>
  {
    if '0' <= c <= '9' then Some(c as int - '0' as int)
    else if 'a' <= c <= 'f' then Some(c as int - 'a' as int + 10)
    else None
  }

  lemma HexDigitDecodes(d: nat)
    requires d < 16
    ensures HexValue(HexDigit(d)) == Some(d)
  {
    assert HexChars[d] as int == if d < 10 then '0' as int + d else 'a' as int + d - 10;
  }

  /** Two lower-case hexadecimal digits, high nibble first (`%02x` of a byte). */
  function Hex2(b: nat): (s: string)
    requires b < 256
    ensures |s| == 2
    ensures HexValue(s[0]) == Some(b / 16) && HexValue(s[1]) == Some(b % 16)
  {
    HexDigitDecodes(b / 16);
    HexDigitDecodes(b % 16);
    [HexDigit(b / 16), HexDigit(b % 16)]
  }

  /** Decodes two hexadecimal digits back into the byte they stand for. */
  function HexPairValue(s: string): (r: Option<nat>)
    requires |s| == 2
    ensures r.Some? ==> r.value < 256
  {
    match (HexValue(s[0]), HexValue(s[1]))
    case (Some(h), Some(l)) => if h < 16 && l < 16 then Some(h * 16 + l) else None
    case _ => None
  }

  lemma Hex2RoundTrip(b: nat)
    requires b < 256
    ensures HexPairValue(Hex2(b)) == Some(b)
  {
  }

  // ---------------------------------------------------------------- decimal

  predicate IsDigit(c: char) {
    '0' <= c <= '9'
  }

  predicate AllDigits(s: string) {
    forall k :: 0 <= k < |s| ==> IsDigit(s[k])
  }

  function DigitChar(d: nat): (c: char)
    requires d < 10
    ensures IsDigit(c) && c as int - '0' as int == d
  {
    ('0' as int + d) as char
  }

  /** The decimal digits of `n`, most significant first, without leading zeros. */
  function NatDecimal(n: nat): (s: string)
    decreases n
  {
    if n < 10 then [DigitChar(n)] else NatDecimal(n / 10) + [DigitChar(n % 10)]
  }

  /** Decimal rendering of a signed integer, as `%lld` / `modp_litoa10` print it. */
  function Decimal(i: int): string
  {
    if i < 0 then "-" + NatDecimal(-i) else NatDecimal(i)
  }

  /** The value of a string of decimal digits. */
  function DigitsValue(s: string): int
    requires AllDigits(s)
    decreases |s|
  {
    if s == [] then 0 else DigitsValue(s[..|s| - 1]) * 10 + (s[|s| - 1] as int - '0' as int)
  }

  /** Reads back what Decimal writes: an optional minus sign and one or more digits. */
  function ParseDecimal(s: string): Option<int>
  {
    if |s| > 1 && s[0] == '-' && AllDigits(s[1..]) then Some(-DigitsValue(s[1..]))
    else if |s| > 0 && AllDigits(s) then Some(DigitsValue(s))
    else None
  }

  lemma {:induction false} NatDecimalDigits(n: nat)
    ensures |NatDecimal(n)| > 0 && AllDigits(NatDecimal(n))
    ensures DigitsValue(NatDecimal(n)) == n
    ensures NatDecimal(n)[0] == '0' ==> n == 0
    decreases n
  {
    if n >= 10 {
      NatDecimalDigits(n / 10);
      var s := NatDecimal(n);
      assert s[..|s| - 1] == NatDecimal(n / 10);
      assert s[0] == NatDecimal(n / 10)[0];
    }
  }

  lemma DecimalRoundTrip(i: int)
    ensures ParseDecimal(Decimal(i)) == Some(i)
  {
    if i < 0 {
      NatDecimalDigits(-i);
      assert Decimal(i)[1..] == NatDecimal(-i);
    } else {
      NatDecimalDigits(i);
    }
  }

  // ------------------------------------------------------------------- join

  /** The elements of `xs` with `sep` between neighbours: no leading or trailing separator. */
  function Join(sep: string, xs: seq<string>): string
    decreases |xs|
  {
    if |xs| == 0 then ""
    else if |xs| == 1 then xs[0]
    else Join(sep, xs[..|xs| - 1]) + sep + xs[|xs| - 1]
  }

  /** Appending one element to a non-empty list adds the separator and the element. */
  lemma JoinSnoc(sep: string, xs: seq<string>, x: string)
    ensures Join(sep, xs + [x]) == if xs == [] then x else Join(sep, xs) + sep + x
  {
    assert (xs + [x])[..|xs|] == xs;
  }

  /** Cuts `s` at every occurrence of `c`, the way a reader splits a log line into
      columns; a string without `c` is one piece. */
  function Split(c: char, s: string): (r: seq<string>)
    ensures |r| > 0
    decreases |s|
  {
    if s == [] then [""]
    else
      var rest := Split(c, s[..|s| - 1]);
      if s[|s| - 1] == c then rest + [""]
      else rest[..|rest| - 1] + [rest[|rest| - 1] + [s[|s| - 1]]]
  }

  predicate Free(c: char, s: string) {
    forall k :: 0 <= k < |s| ==> s[k] != c
  }

  /** Appending text without the separator extends the last piece. */
  lemma {:induction false} SplitExtend(c: char, s: string, x: string)
    requires Free(c, x)
    ensures var r := Split(c, s);
            Split(c, s + x) == r[..|r| - 1] + [r[|r| - 1] + x]
    decreases |x|
  {
    var r := Split(c, s);
    if x == [] {
      assert s + x == s;
      assert r[|r| - 1] + x == r[|r| - 1];
      assert r[..|r| - 1] + [r[|r| - 1]] == r;
    } else {
      var x' := x[..|x| - 1];
      assert (s + x)[..|s + x| - 1] == s + x';
      SplitExtend(c, s, x');
      assert r[|r| - 1] + x' + [x[|x| - 1]] == r[|r| - 1] + x;
    }
  }

  /** Splitting a joined line at the separator gives back the columns, provided no
      column contains the separator (what the writer's escaping is there to ensure). */
  lemma {:induction false} SplitJoin(c: char, xs: seq<string>)
    requires |xs| > 0
    requires forall i :: 0 <= i < |xs| ==> Free(c, xs[i])
    ensures Split(c, Join([c], xs)) == xs
    decreases |xs|
  {
    var n := |xs|;
    if n == 1 {
      SplitFree(c, xs[0]);
      InitLast(xs);
    } else {
      var init, last := xs[..n - 1], xs[n - 1];
      SplitJoin(c, init);
      var p := Join([c], init);
      assert Join([c], xs) == (p + [c]) + last;
      SplitSeparator(c, p);
      SplitExtend(c, p + [c], last);
      var r := init + [""];
      assert r[..|r| - 1] == init && r[|r| - 1] + last == last;
      InitLast(xs);
    }
  }

  lemma InitLast<T>(xs: seq<T>)
    requires |xs| > 0
    ensures xs[..|xs| - 1] + [xs[|xs| - 1]] == xs
  {
  }

  /** A string without the separator is a single piece. */
  lemma SplitFree(c: char, x: string)
    requires Free(c, x)
    ensures Split(c, x) == [x]
  {
    SplitExtend(c, "", x);
    assert "" + x == x;
  }

  /** A trailing separator starts an empty last piece. */
  lemma SplitSeparator(c: char, s: string)
    ensures Split(c, s + [c]) == Split(c, s) + [""]
  {
    assert (s + [c])[..|s|] == s;
  }

  lemma AppendAssoc(a: string, b: string, c: string)
    ensures a + b + c == a + (b + c)
  {
  }

  // ------------------------------------------------------------ concat

  /** The strings of `xs` one after the other. */
  function Concat(xs: seq<string>): string
    decreases |xs|
  {
    if xs == [] then "" else Concat(xs[..|xs| - 1]) + xs[|xs| - 1]
  }
}
