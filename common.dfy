/** Value helpers shared by the whole model: an optional value, Java's
    String.trim, case folding and substring search as the database does them,
    decimal digits, and Java's integer arithmetic (truncating division and
    32-bit wrap-around). */
module Common {

  datatype Option<+T> = None | Some(value: T)

  // ---------------------------------------------------------------------------
  // java.lang.String.trim: strips every leading and trailing char <= U+0020.

  predicate IsTrimmable(c: char) {
    c <= ' '
  }

  /** Drops the trailing trimmable chars. */
  function TrimEnd(s: string): (r: string)
    ensures r <= s
    ensures |r| > 0 ==> !IsTrimmable(r[|r| - 1])
    ensures forall k :: |r| <= k < |s| ==> IsTrimmable(s[k])
  {
    if |s| > 0 && IsTrimmable(s[|s| - 1]) then TrimEnd(s[..|s| - 1]) else s
  }

  /** Drops the leading trimmable chars. */
  function TrimStart(s: string): (r: string)
    ensures |r| <= |s| && r == s[|s| - |r|..]
    ensures |r| > 0 ==> !IsTrimmable(r[0])
    ensures forall k :: 0 <= k < |s| - |r| ==> IsTrimmable(s[k])
  {
    if |s| > 0 && IsTrimmable(s[0]) then TrimStart(s[1..]) else s
  }

  /** java.lang.String.trim: no longer than the input, and a non-empty
      result starts and ends with a visible char. */
  function Trim(s: string): (r: string)
    ensures |r| <= |s|
    ensures |r| > 0 ==> !IsTrimmable(r[0]) && !IsTrimmable(r[|r| - 1])
  {
    TrimStart(TrimEnd(s))
  }

  /** A trimmed string starts and ends with a visible char, is a piece of the
      input, and everything cut away around it is trimmable. */
  lemma TrimShape(s: string)
    ensures var r, i := Trim(s), |TrimEnd(s)| - |Trim(s)|;
      && (|r| > 0 ==> !IsTrimmable(r[0]) && !IsTrimmable(r[|r| - 1]))
      && 0 <= i && i + |r| <= |s| && s[i..i + |r|] == r
      && (forall k :: 0 <= k < i ==> IsTrimmable(s[k]))
      && (forall k :: i + |r| <= k < |s| ==> IsTrimmable(s[k]))
  {
    var e := TrimEnd(s);
    var r := TrimStart(e);
    var i := |e| - |r|;
    assert e == s[..|e|];
    assert s[i..i + |r|] == r;
  }

  /** TrimEnd gives back a string that already ends in a visible char. */
  lemma TrimEndOfVisibleEnd(s: string)
    requires |s| > 0 && !IsTrimmable(s[|s| - 1])
    ensures TrimEnd(s) == s
  {
  }

  /** TrimStart gives back a string that already starts with a visible char. */
  lemma TrimStartOfVisibleStart(s: string)
    requires |s| > 0 && !IsTrimmable(s[0])
    ensures TrimStart(s) == s
  {
  }

  lemma {:induction false} TrimIdempotent(s: string)
    ensures Trim(Trim(s)) == Trim(s)
  {
    var r := Trim(s);
    if |r| > 0 {
      TrimShape(s);
      TrimEndOfVisibleEnd(r);
      TrimStartOfVisibleStart(r);
    }
  }

  /** A visible char followed only by trimmable ones stays the last char
      of the trimmed string. */
  lemma {:induction false} TrimKeepsLastVisible(x: string, c: char, tail: string)
    requires !IsTrimmable(c)
    requires forall k :: 0 <= k < |tail| ==> IsTrimmable(tail[k])
    ensures var r := Trim(x + [c] + tail); |r| > 0 && r[|r| - 1] == c
  {
    var s := x + [c] + tail;
    var e := TrimEnd(s);
    assert s[|x|] == c;
    assert |e| == |x| + 1;
    assert e[|e| - 1] == s[|x|];
    var r := TrimStart(e);
    assert r[|r| - 1] == e[|e| - 1];
  }

  // ---------------------------------------------------------------------------
  // Case folding and substring search, as SQL LOWER(..) LIKE '%term%' does them.

  /** ASCII lower-casing of one char. */
  function LowerChar(c: char): char {
    if 'A' <= c <= 'Z' then (c as int + 32) as char else c
  }

  function Lower(s: string): (r: string)
    ensures |r| == |s|
    ensures forall k :: 0 <= k < |s| ==> r[k] == LowerChar(s[k])
  {
    if s == [] then [] else [LowerChar(s[0])] + Lower(s[1..])
  }

  /** True iff `needle` occurs in `hay` as a contiguous piece. */
  predicate Contains(hay: string, needle: string)
    decreases |hay|
  {
    needle <= hay || (|hay| > 0 && Contains(hay[1..], needle))
  }

  lemma {:induction false} ContainsAt(hay: string, needle: string, i: nat)
    requires i + |needle| <= |hay| && hay[i..i + |needle|] == needle
    ensures Contains(hay, needle)
    decreases i
  {
    if i == 0 {
      assert needle <= hay;
    } else {
      assert hay[1..][i - 1..i - 1 + |needle|] == needle;
      ContainsAt(hay[1..], needle, i - 1);
    }
  }

  // ---------------------------------------------------------------------------
  // Decimal digits.

  predicate IsDigit(c: char) {
    '0' <= c <= '9'
  }

  predicate AllDigits(s: string) {
    forall k :: 0 <= k < |s| ==> IsDigit(s[k])
  }

  /** The value of a run of decimal digits, as Integer.parseInt reads it. */
  function DigitsValue(s: string): (n: nat)
    requires AllDigits(s)
    ensures n < Power10(|s|)
  {
    if s == [] then 0
    else DigitsValue(s[..|s| - 1]) * 10 + (s[|s| - 1] as int - '0' as int)
  }

  function DigitOf(c: char): int {
    c as int - '0' as int
  }

  lemma TwoDigitsValue(s: string)
    requires |s| == 2 && AllDigits(s)
    ensures DigitsValue(s) == 10 * DigitOf(s[0]) + DigitOf(s[1])
  {
    assert s[..1][..0] == [];
  }

  lemma FourDigitsValue(s: string)
    requires |s| == 4 && AllDigits(s)
    ensures DigitsValue(s) == 1000 * DigitOf(s[0]) + 100 * DigitOf(s[1]) + 10 * DigitOf(s[2]) + DigitOf(s[3])
  {
    assert s[..3][..2] == s[..2];
    TwoDigitsValue(s[..2]);
  }

  function Power10(k: nat): (p: nat)
    ensures p >= 1
  {
    if k == 0 then 1 else 10 * Power10(k - 1)
  }

  function DigitChar(d: nat): (c: char)
    requires d < 10
    ensures IsDigit(c) && c as int - '0' as int == d
  {
    ('0' as int + d) as char
  }

  /** The shortest decimal rendering of a natural number, as String.valueOf
      writes it. */
  function NatToString(n: nat): (s: string)
    ensures |s| > 0 && AllDigits(s)
    ensures |s| > 1 ==> s[0] != '0'
  {
    if n < 10 then [DigitChar(n)] else NatToString(n / 10) + [DigitChar(n % 10)]
  }

  function IntToString(n: int): string {
    if n < 0 then "-" + NatToString(-n) else NatToString(n)
  }

  /** Reading back a rendered number gives the number. */
  lemma {:induction false} NatToStringRoundTrip(n: nat)
    ensures DigitsValue(NatToString(n)) == n
  {
    if n >= 10 {
      NatToStringRoundTrip(n / 10);
      var s := NatToString(n);
      assert s[..|s| - 1] == NatToString(n / 10);
    }
  }

  // ---------------------------------------------------------------------------
  // Java integer arithmetic.

  /** Java's `/`: the quotient rounded toward zero. */
  function JavaDiv(a: int, b: int): int
    requires b != 0
  {
    if a >= 0 then (if b > 0 then a / b else -(a / -b))
    else (if b > 0 then -((-a) / b) else (-a) / (-b))
  }

  /** Java's `%`: the remainder that goes with JavaDiv (sign of the dividend). */
  function JavaRem(a: int, b: int): int
    requires b != 0
  {
    a - b * JavaDiv(a, b)
  }

  const TWO_TO_32: int := 0x1_0000_0000
  const INT_MAX: int := 0x7FFF_FFFF
  const INT_MIN: int := -0x8000_0000

  predicate IsInt32(x: int) {
    INT_MIN <= x <= INT_MAX
  }

  /** The 32-bit two's-complement value of x, as Java's int arithmetic and
      an (int) cast of a long produce it. */
  function WrapInt32(x: int): (r: int)
    ensures IsInt32(r)
    ensures (r - x) % TWO_TO_32 == 0
    ensures IsInt32(x) ==> r == x
  {
    var m := x % TWO_TO_32;
    if m > INT_MAX then m - TWO_TO_32 else m
  }

  function Min(a: int, b: int): int {
    if a <= b then a else b
  }
}
