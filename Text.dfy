/**
 * The Python string built-ins the data preparation relies on: `str.strip()`,
 * `str.split(sep)`, `str.split(sep, 1)`, `str.lower()`, `sub in s`, `int(s)`
 * and zero-padded decimal rendering.
 */
module Text {
  import opened Wrappers

  /** `c.isspace()`: the code points Python classes as whitespace. */
  predicate IsSpace(c: char) {
    var n := c as int;
    n == 0x20 || 0x09 <= n <= 0x0D || 0x1C <= n <= 0x1F || n == 0x85 || n == 0xA0
    || n == 0x1680 || 0x2000 <= n <= 0x200A || n == 0x2028 || n == 0x2029
    || n == 0x202F || n == 0x205F || n == 0x3000
  }

  predicate AllSpace(s: string) {
    forall k :: 0 <= k < |s| ==> IsSpace(s[k])
  }

  predicate NoSpace(s: string) {
    forall k :: 0 <= k < |s| ==> !IsSpace(s[k])
  }

  /** The index of the first non-whitespace character of `s` at or after `i` (or `|s|`). */
  function SkipSpaces(s: string, i: nat): (j: nat)
    requires i <= |s|
    ensures i <= j <= |s|
    ensures forall k :: i <= k < j ==> IsSpace(s[k])
    ensures j == |s| || !IsSpace(s[j])
    decreases |s| - i
  {
    if i < |s| && IsSpace(s[i]) then SkipSpaces(s, i + 1) else i
  }

  /** The end of `s[lo..j]` once its trailing whitespace is dropped. */
  function SkipSpacesBack(s: string, lo: nat, j: nat): (i: nat)
    requires lo <= j <= |s|
    ensures lo <= i <= j
    ensures forall k :: i <= k < j ==> IsSpace(s[k])
    ensures i == lo || !IsSpace(s[i - 1])
    decreases j
  {
    if lo < j && IsSpace(s[j - 1]) then SkipSpacesBack(s, lo, j - 1) else j
  }

  /** `s.lstrip()` */
  function TrimStart(s: string): (r: string)
    ensures r == [] || !IsSpace(r[0])
    ensures |r| <= |s| && r == s[|s| - |r|..] && AllSpace(s[..|s| - |r|])
  {
    s[SkipSpaces(s, 0)..]
  }

  /** One whitespace character followed by a non-whitespace one is all `lstrip` removes. */
  lemma TrimStartOneSpace(c: char, s: string)
    requires IsSpace(c) && s != [] && !IsSpace(s[0])
    ensures TrimStart([c] + s) == s
  {
    var t := [c] + s;
    assert t[1..] == s;
  }

  /** A whole whitespace run before a non-whitespace character is what `lstrip` removes. */
  lemma TrimStartRun(gap: string, s: string)
    requires AllSpace(gap) && s != [] && !IsSpace(s[0])
    ensures TrimStart(gap + s) == s
  {
    var t := gap + s;
    assert forall k :: 0 <= k < |gap| ==> IsSpace(t[k]);
    assert !IsSpace(t[|gap|]);
    assert SkipSpaces(t, 0) == |gap|;
    assert t[|gap|..] == s;
  }

  /**
   * `s.strip()`: `s` without its leading and trailing whitespace. The result
   * is empty exactly when `s` is blank, and otherwise starts and ends with a
   * non-whitespace character and sits in `s` between two whitespace runs.
   */
  function Strip(s: string): (r: string)
    ensures r == [] <==> AllSpace(s)
    ensures r != [] ==> !IsSpace(r[0]) && !IsSpace(r[|r| - 1])
    ensures var i := SkipSpaces(s, 0);
      i + |r| <= |s| && r == s[i..i + |r|] && AllSpace(s[..i]) && AllSpace(s[i + |r|..])
  {
    var i := SkipSpaces(s, 0);
    s[i..SkipSpacesBack(s, i, |s|)]
  }

  /** Text without whitespace is its own strip. */
  lemma StripPlain(s: string)
    requires NoSpace(s)
    ensures Strip(s) == s
  {
    if s != [] {
      assert !IsSpace(s[0]) && !IsSpace(s[|s| - 1]);
    }
  }

  /** Index of the first occurrence of `c` in `s`, as `s.find(c)` (None for -1). */
  function IndexOf(s: string, c: char): (r: Option<nat>)
    ensures r.None? <==> c !in s
    ensures r.Some? ==> r.value < |s| && s[r.value] == c && c !in s[..r.value]
  {
    if |s| == 0 then None
    else if s[0] == c then Some(0)
    else match IndexOf(s[1..], c)
      case None => None
      case Some(k) => assert s[..k + 1] == [s[0]] + s[1..][..k]; Some(k + 1)
  }

  /** The first `c` in `a + [c] + b` is the one after `a` when `a` has none. */
  lemma IndexOfAfter(a: string, c: char, b: string)
    requires c !in a
    ensures IndexOf(a + [c] + b, c) == Some(|a|)
  {
    var s := a + [c] + b;
    assert s[|a|] == c;
  }

  /** Index of the first whitespace character of `s`. */
  function IndexOfSpace(s: string): (r: Option<nat>)
    ensures r.None? <==> forall k :: 0 <= k < |s| ==> !IsSpace(s[k])
    ensures r.Some? ==> r.value < |s| && IsSpace(s[r.value])
    ensures r.Some? ==> forall k :: 0 <= k < r.value ==> !IsSpace(s[k])
  {
    if |s| == 0 then None
    else if IsSpace(s[0]) then Some(0)
    else match IndexOfSpace(s[1..])
      case None => None
      case Some(k) => Some(k + 1)
  }

  /** The first whitespace in `a + [c] + b` is `c` when `a` has none. */
  lemma IndexOfSpaceAfter(a: string, c: char, b: string)
    requires NoSpace(a) && IsSpace(c)
    ensures IndexOfSpace(a + [c] + b) == Some(|a|)
  {
    var s := a + [c] + b;
    assert s[|a|] == c;
    assert forall k :: 0 <= k < |a| ==> s[k] == a[k];
  }

  /** `s.split(sep)` for a one-character separator. */
  function Split(s: string, sep: char): (parts: seq<string>)
    ensures |parts| >= 1
    ensures forall k :: 0 <= k < |parts| ==> sep !in parts[k]
    decreases |s|
  {
    match IndexOf(s, sep)
    case None => [s]
    case Some(i) => [s[..i]] + Split(s[i + 1..], sep)
  }

  /** Splitting at the first separator: the text before it, then the split of the rest. */
  lemma SplitAtFirst(a: string, sep: char, b: string)
    requires sep !in a
    ensures Split(a + [sep] + b, sep) == [a] + Split(b, sep)
  {
    var s := a + [sep] + b;
    IndexOfAfter(a, sep, b);
    assert s[..|a|] == a && s[|a| + 1..] == b;
  }

  /** `sep.join(parts)`, the inverse of Split. */
  function Join(parts: seq<string>, sep: char): string
  {
    if |parts| <= 1 then (if parts == [] then "" else parts[0])
    else parts[0] + [sep] + Join(parts[1..], sep)
  }

  /** Joining the pieces of a split gives back the split string. */
  lemma {:induction false} JoinSplit(s: string, sep: char)
    ensures Join(Split(s, sep), sep) == s
    decreases |s|
  {
    match IndexOf(s, sep)
    case None =>
    case Some(i) =>
      var a, b := s[..i], s[i + 1..];
      SplitAtIndex(s, sep, i);
      JoinCons(a, Split(b, sep), sep);
      JoinSplit(b, sep);
  }

  /** The split of `s` at its first separator, index `i`. */
  lemma SplitAtIndex(s: string, sep: char, i: nat)
    requires IndexOf(s, sep) == Some(i)
    ensures s == s[..i] + [sep] + s[i + 1..]
    ensures Split(s, sep) == [s[..i]] + Split(s[i + 1..], sep)
  {
  }

  /** Joining a first piece onto a non-empty list of pieces. */
  lemma JoinCons(part: string, rest: seq<string>, sep: char)
    requires rest != []
    ensures Join([part] + rest, sep) == part + [sep] + Join(rest, sep)
  {
    assert ([part] + rest)[1..] == rest;
  }

  /** Splitting yields one piece more than there are separators in the string. */
  lemma {:induction false} SplitCount(s: string, sep: char)
    ensures |Split(s, sep)| == multiset(s)[sep] + 1
    decreases |s|
  {
    match IndexOf(s, sep)
    case None =>
    case Some(i) =>
      SplitCount(s[i + 1..], sep);
      CountAtSeparator(s, sep, i);
  }

  /** The first separator adds one to the count of separators in the rest. */
  lemma CountAtSeparator(s: string, sep: char, i: nat)
    requires IndexOf(s, sep) == Some(i)
    ensures multiset(s)[sep] == multiset(s[i + 1..])[sep] + 1
  {
    assert s == s[..i] + [sep] + s[i + 1..];
    assert multiset(s) == multiset(s[..i]) + multiset{sep} + multiset(s[i + 1..]);
  }

  /** `s.split(sep, 1)`: the text before the first separator and, if there is one, the rest. */
  function SplitOnce(s: string, sep: char): (parts: seq<string>)
    ensures 1 <= |parts| <= 2
    ensures |parts| == 1 <==> sep !in s
    ensures |parts| == 1 ==> parts[0] == s
    ensures |parts| == 2 ==> parts[0] + [sep] + parts[1] == s && sep !in parts[0]
  {
    match IndexOf(s, sep)
    case None => [s]
    case Some(i) => assert s == s[..i] + [sep] + s[i + 1..]; [s[..i], s[i + 1..]]
  }

  /** `c.lower()` for ASCII letters; every other character is left as it is. */
  function LowerChar(c: char): char {
    if 'A' <= c <= 'Z' then (c as int - 'A' as int + 'a' as int) as char else c
  }

  /** `s.lower()`, ASCII letters only. */
  function Lower(s: string): (r: string)
    ensures |r| == |s|
    ensures forall k :: 0 <= k < |s| ==> r[k] == LowerChar(s[k])
  {
    seq(|s|, k requires 0 <= k < |s| => LowerChar(s[k]))
  }

  /** `sub` occurs in `s` starting at index `i`. */
  predicate OccursAt(s: string, sub: string, i: int) {
    0 <= i <= |s| - |sub| && s[i..i + |sub|] == sub
  }

  /** `sub in s`: `sub` occurs in `s` at some position. */
  function Contains(s: string, sub: string): (b: bool)
    ensures b <==> exists i :: OccursAt(s, sub, i)
    decreases |s|
  {
    if |s| < |sub| then false
    else if s[..|sub|] == sub then assert OccursAt(s, sub, 0); true
    else
      var b := Contains(s[1..], sub);
      assert b ==> exists i :: OccursAt(s, sub, i) by {
        if b {
          var i :| OccursAt(s[1..], sub, i);
          assert s[i + 1..i + 1 + |sub|] == s[1..][i..i + |sub|];
          assert OccursAt(s, sub, i + 1);
        }
      }
      assert (exists i :: OccursAt(s, sub, i)) ==> b by {
        if exists i :: OccursAt(s, sub, i) {
          var i :| OccursAt(s, sub, i);
          assert i != 0;
          assert s[1..][i - 1..i - 1 + |sub|] == s[i..i + |sub|];
          assert OccursAt(s[1..], sub, i - 1);
        }
      }
      b
  }

  predicate IsDigit(c: char) { '0' <= c <= '9' }

  predicate AllDigits(s: string) {
    forall k :: 0 <= k < |s| ==> IsDigit(s[k])
  }

  function DigitChar(d: nat): char
    requires d < 10
  {
    ('0' as int + d) as char
  }

  /** The number a string of ASCII decimal digits denotes. */
  function DigitsValue(s: string): nat
    requires AllDigits(s)
  {
    if s == [] then 0 else DigitsValue(s[..|s| - 1]) * 10 + (s[|s| - 1] as int - '0' as int)
  }

  function Pow10(n: nat): nat {
    if n == 0 then 1 else 10 * Pow10(n - 1)
  }

  /** A string of `n` digits denotes a number below 10^n. */
  lemma {:induction false} DigitsValueBound(s: string)
    requires AllDigits(s)
    ensures DigitsValue(s) < Pow10(|s|)
  {
    if s != [] {
      DigitsValueBound(s[..|s| - 1]);
    }
  }

  /** `str(n)` for a natural number: its shortest decimal rendering. */
  function NatText(n: nat): (r: string)
    ensures 1 <= |r| && AllDigits(r) && DigitsValue(r) == n
    ensures r[0] == '0' ==> n == 0 && |r| == 1
    ensures |r| == 1 <==> n < 10
    ensures n < 100 ==> |r| <= 2
  {
    if n < 10 then [DigitChar(n)]
    else
      var r := NatText(n / 10) + [DigitChar(n % 10)];
      assert r[..|r| - 1] == NatText(n / 10);
      r
  }

  /** `"%0<width>d" % n`: exactly `width` digits, zero-padded on the left. */
  function PadDigits(n: nat, width: nat): (r: string)
    requires n < Pow10(width)
    ensures |r| == width && AllDigits(r) && DigitsValue(r) == n
  {
    if width == 0 then ""
    else
      var q, d := n / 10, n % 10;
      assert n == q * 10 + d && Pow10(width) == 10 * Pow10(width - 1);
      var prefix := PadDigits(q, width - 1);
      var r := prefix + [DigitChar(d)];
      assert r[..|r| - 1] == prefix;
      assert DigitsValue(r) == DigitsValue(prefix) * 10 + d;
      r
  }

  /** Zero-padding a digit string's value to its own length gives the string back. */
  lemma {:induction false} PadDigitsOfText(s: string)
    requires AllDigits(s)
    ensures DigitsValue(s) < Pow10(|s|)
    ensures PadDigits(DigitsValue(s), |s|) == s
  {
    DigitsValueBound(s);
    if s != [] {
      var init := s[..|s| - 1];
      PadDigitsOfText(init);
      var n := DigitsValue(s);
      assert n / 10 == DigitsValue(init) && n % 10 == s[|s| - 1] as int - '0' as int;
      assert s == init + [s[|s| - 1]];
    }
  }

  lemma {:induction false} Pow10Positive(n: nat)
    ensures Pow10(n) >= 1
  {
    if n > 0 {
      Pow10Positive(n - 1);
    }
  }

  /** A digit string without a leading zero denotes at least 10^(length - 1). */
  lemma {:induction false} LeadingDigitBound(s: string)
    requires AllDigits(s) && s != [] && s[0] != '0'
    ensures DigitsValue(s) >= Pow10(|s| - 1)
  {
    if |s| > 1 {
      LeadingDigitBound(s[..|s| - 1]);
    }
  }

  /** `str(int(s)) == s` for a digit string without leading zeros. */
  lemma {:induction false} NatTextOfText(s: string)
    requires AllDigits(s) && s != [] && (s[0] != '0' || |s| == 1)
    ensures NatText(DigitsValue(s)) == s
  {
    var n := DigitsValue(s);
    if |s| == 1 {
      assert s[..0] == [];
    } else {
      var init := s[..|s| - 1];
      LeadingDigitBound(s);
      assert Pow10(|s| - 1) >= 10 by {
        Pow10Positive(|s| - 2);
      }
      assert init[0] == s[0];
      NatTextOfText(init);
      assert n / 10 == DigitsValue(init) && n % 10 == s[|s| - 1] as int - '0' as int;
      assert s == init + [s[|s| - 1]];
    }
  }

  /** The strings `int()` accepts in this model: an optional sign and one or more ASCII digits. */
  predicate IsIntLiteral(s: string) {
    var digits := if |s| > 0 && (s[0] == '+' || s[0] == '-') then s[1..] else s;
    |digits| > 0 && AllDigits(digits)
  }

  /** `int(s)` on already stripped text; None where Python raises ValueError. */
  function ParseInt(s: string): (r: Option<int>)
    ensures r.Some? <==> IsIntLiteral(s)
  {
    if |s| > 0 && (s[0] == '+' || s[0] == '-') then
      var digits := s[1..];
      if |digits| > 0 && AllDigits(digits) then
        Some(if s[0] == '-' then -(DigitsValue(digits) as int) else DigitsValue(digits))
      else None
    else if |s| > 0 && AllDigits(s) then Some(DigitsValue(s))
    else None
  }

  /** `str(n)` for any integer. */
  function IntText(n: int): string {
    if n < 0 then "-" + NatText(-n) else NatText(n)
  }

  /** `int(s)` of a plain digit string is its decimal value. */
  lemma ParseDigits(s: string)
    requires s != [] && AllDigits(s)
    ensures ParseInt(s) == Some(DigitsValue(s))
  {
    assert IsDigit(s[0]);
  }

  /** `int()` of a signed digit string: `"-05"` is -5 and `"+5"` is 5. */
  lemma ParseSigned(digits: string)
    requires digits != [] && AllDigits(digits)
    ensures ParseInt("-" + digits) == Some(-(DigitsValue(digits) as int))
    ensures ParseInt("+" + digits) == Some(DigitsValue(digits))
  {
    assert ("-" + digits)[1..] == digits;
    assert ("+" + digits)[1..] == digits;
  }

  /** A string whose first character is absent from `s` does not occur in `s`. */
  lemma NotContainsFirst(s: string, sub: string)
    requires sub != [] && sub[0] !in s
    ensures !Contains(s, sub)
  {
  }

  /** `int(str(n)) == n`. */
  lemma IntTextRoundTrip(n: int)
    ensures ParseInt(IntText(n)) == Some(n)
  {
    if n < 0 {
      assert IntText(n)[1..] == NatText(-n);
    }
  }
}
