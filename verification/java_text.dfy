/**
 * The handful of `java.lang.String` / `Integer` / `Long` behaviours the three
 * cores rely on, stated over `seq<char>` and unbounded `int`:
 * `indexOf(str, from)`, `lastIndexOf(ch)`, `split` on a single character,
 * `Integer.parseInt` / `Long.parseLong` in radix 10, and 32-bit `int`
 * wrap-around.
 */
module JavaText {
  import opened Wrappers

  // ---------------------------------------------------------------------------
  // Searching
  // ---------------------------------------------------------------------------

  /** `t` occurs in `s` starting at index `k`. */
  predicate OccursAt(s: string, t: string, k: int) {
    0 <= k && k + |t| <= |s| && s[k..k + |t|] == t
  }

  /** `k` is the first occurrence of `t` in `s` at or after `from`. */
  predicate FirstAtOrAfter(s: string, t: string, from: int, k: int) {
    from <= k && OccursAt(s, t, k) && forall j :: from <= j < k ==> !OccursAt(s, t, j)
  }

  /** `t` occurs nowhere in `s` at or after `from`. */
  predicate AbsentFrom(s: string, t: string, from: int) {
    forall j :: from <= j <= |s| ==> !OccursAt(s, t, j)
  }

  /** Java's `s.indexOf(t, from)`: the first occurrence at or after `from`, else -1. */
  function IndexOf(s: string, t: string, from: nat): (r: int)
    requires from <= |s|
    ensures r == -1 || FirstAtOrAfter(s, t, from, r)
    ensures r == -1 <==> AbsentFrom(s, t, from)
    decreases |s| - from
  {
    if from + |t| > |s| then -1
    else if s[from..from + |t|] == t then from
    else IndexOf(s, t, from + 1)
  }

  /** The first occurrence at or after `from` is unique. */
  lemma FirstAtOrAfterUnique(s: string, t: string, from: int, k1: int, k2: int)
    requires FirstAtOrAfter(s, t, from, k1) && FirstAtOrAfter(s, t, from, k2)
    ensures k1 == k2
  {
  }

  /** Java's `s.lastIndexOf(c)`: the last index holding `c`, else -1. */
  function LastIndexOf(s: string, c: char): (r: int)
    ensures -1 <= r < |s|
    ensures r >= 0 ==> s[r] == c
    ensures forall k :: r < k < |s| ==> s[k] != c
    ensures r == -1 <==> c !in s
    decreases |s|
  {
    if |s| == 0 then -1
    else if s[|s| - 1] == c then |s| - 1
    else LastIndexOf(s[..|s| - 1], c)
  }

  /** The last `c` of `a + [c] + b` is the one between them when `b` holds none. */
  lemma LastIndexOfAppend(a: string, c: char, b: string)
    requires c !in b
    ensures LastIndexOf(a + [c] + b, c) == |a|
  {
    var s := a + [c] + b;
    assert s[|a|] == c;
  }

  // ---------------------------------------------------------------------------
  // Splitting on one character
  // ---------------------------------------------------------------------------

  /** Every piece between separators, empty pieces included (no trimming). */
  function SplitAll(s: string, sep: char): (parts: seq<string>)
    ensures |parts| >= 1
    ensures forall i :: 0 <= i < |parts| ==> sep !in parts[i]
    decreases |s|
  {
    var k := LastIndexOf(s, sep);
    if k < 0 then [s] else SplitAll(s[..k], sep) + [s[k + 1..]]
  }

  /** The pieces glued back together with the separator between them. */
  function Join(parts: seq<string>, sep: char): string
    requires |parts| >= 1
  {
    if |parts| == 1 then parts[0]
    else Join(parts[..|parts| - 1], sep) + [sep] + parts[|parts| - 1]
  }

  /** Splitting loses nothing: joining the pieces gives back the string. */
  lemma {:induction false} JoinSplitAll(s: string, sep: char)
    ensures Join(SplitAll(s, sep), sep) == s
    decreases |s|
  {
    var k := LastIndexOf(s, sep);
    if k >= 0 {
      var parts := SplitAll(s, sep);
      assert parts[..|parts| - 1] == SplitAll(s[..k], sep);
      JoinSplitAll(s[..k], sep);
      assert s == s[..k] + [sep] + s[k + 1..];
    }
  }

  /** Appending a separator-free piece appends exactly one part. */
  lemma SplitAllAppend(s: string, sep: char, piece: string)
    requires sep !in piece
    ensures SplitAll(s + [sep] + piece, sep) == SplitAll(s, sep) + [piece]
  {
    var t := s + [sep] + piece;
    LastIndexOfAppend(s, sep, piece);
    assert t[..|s|] == s;
    assert t[|s| + 1..] == piece;
  }

  /** Joining separator-free pieces and splitting again gives the pieces back. */
  lemma {:induction false} SplitAllJoin(parts: seq<string>, sep: char)
    requires |parts| >= 1
    requires forall i :: 0 <= i < |parts| ==> sep !in parts[i]
    ensures SplitAll(Join(parts, sep), sep) == parts
    decreases |parts|
  {
    if |parts| > 1 {
      var init := parts[..|parts| - 1];
      SplitAllJoin(init, sep);
      SplitAllAppend(Join(init, sep), sep, parts[|parts| - 1]);
      assert init + [parts[|parts| - 1]] == parts;
    }
  }

  /** Drops the empty strings at the end, as `String.split` does with limit 0. */
  function DropTrailingEmpty(parts: seq<string>): (r: seq<string>)
    ensures |r| <= |parts| && r == parts[..|r|]
    ensures |r| == 0 || r[|r| - 1] != ""
    ensures forall i :: |r| <= i < |parts| ==> parts[i] == ""
  {
    if |parts| > 0 && parts[|parts| - 1] == "" then DropTrailingEmpty(parts[..|parts| - 1])
    else parts
  }

  /**
   * Java's `s.split(sep)` for a one-character separator that is not a regular
   * expression metacharacter: a string without the separator comes back
   * whole (even when empty); otherwise the pieces, without trailing empties.
   */
  function JavaSplit(s: string, sep: char): (parts: seq<string>)
    ensures forall i :: 0 <= i < |parts| ==> sep !in parts[i]
  {
    if sep !in s then [s] else DropTrailingEmpty(SplitAll(s, sep))
  }

  // ---------------------------------------------------------------------------
  // Decimal numbers
  // ---------------------------------------------------------------------------

  predicate IsDigit(c: char) {
    '0' <= c <= '9'
  }

  predicate AllDigits(s: string) {
    forall i :: 0 <= i < |s| ==> IsDigit(s[i])
  }

  function DigitValue(c: char): nat
    requires IsDigit(c)
  {
    (c as int) - ('0' as int)
  }

  /** The value of a string of decimal digits, most significant first. */
  function DigitsValue(s: string): nat
    requires AllDigits(s)
    decreases |s|
  {
    if |s| == 0 then 0 else 10 * DigitsValue(s[..|s| - 1]) + DigitValue(s[|s| - 1])
  }

  function DigitChar(d: nat): (c: char)
    requires d < 10
    ensures IsDigit(c) && DigitValue(c) == d
  {
    ('0' as int + d) as char
  }

  /** Decimal digits of `n`, without leading zeros. */
  function ShowNat(n: nat): (s: string)
    ensures |s| >= 1 && AllDigits(s)
    ensures DigitsValue(s) == n
    decreases n
  {
    if n < 10 then [DigitChar(n)]
    else
      var init := ShowNat(n / 10);
      var s := init + [DigitChar(n % 10)];
      assert s[..|s| - 1] == init;
      s
  }

  /** `Long.toString(n)`: an optional minus sign, then the digits. */
  function ShowInt(n: int): string {
    if n < 0 then "-" + ShowNat(-n) else ShowNat(n)
  }

  /**
   * Java's `Integer.parseInt(s)` (`lo`, `hi` the `int` range) or
   * `Long.parseLong(s)` (the `long` range): an optional '+' or '-', then at
   * least one digit, with the value inside the type's range; anything else
   * is a `NumberFormatException`, here `None`.
   */
  function ParseSigned(s: string, lo: int, hi: int): (r: Option<int>)
    ensures r.Some? ==> lo <= r.value <= hi
    ensures |s| == 0 ==> r.None?
    ensures r.Some? ==> s[0] == '-' || s[0] == '+' || IsDigit(s[0])
    ensures r.Some? && s[0] != '-' ==> r.value >= 0
    ensures r.Some? && s[0] == '-' ==> r.value <= 0
  {
    if |s| == 0 then None
    else
      var digits := if s[0] == '-' || s[0] == '+' then s[1..] else s;
      if |digits| == 0 || !AllDigits(digits) then None
      else
        var n: int := DigitsValue(digits);
        var v := if s[0] == '-' then -n else n;
        if lo <= v <= hi then Some(v) else None
  }

  /** Parsing what `ShowInt` printed gives the number back, whenever it is in range. */
  lemma ParseShowInt(n: int, lo: int, hi: int)
    requires lo <= n <= hi
    ensures ParseSigned(ShowInt(n), lo, hi) == Some(n)
  {
    var s := ShowInt(n);
    if n < 0 {
      assert s[1..] == ShowNat(-n);
    } else {
      assert IsDigit(s[0]);
    }
  }

  // ---------------------------------------------------------------------------
  // Java integer widths
  // ---------------------------------------------------------------------------

  const INT32_MIN: int := -0x8000_0000
  const INT32_MAX: int := 0x7FFF_FFFF
  const INT64_MIN: int := -0x8000_0000_0000_0000
  const INT64_MAX: int := 0x7FFF_FFFF_FFFF_FFFF

  /** A Java `int`. */
  type Int32 = x: int | INT32_MIN <= x <= INT32_MAX

  /** Java `int` arithmetic: the representative of `x` modulo 2^32 in the `int` range. */
  function Wrap32(x: int): (r: Int32)
    ensures (r - x) % 0x1_0000_0000 == 0
    ensures INT32_MIN <= x <= INT32_MAX ==> r == x
  {
    (x - INT32_MIN) % 0x1_0000_0000 + INT32_MIN
  }
}
