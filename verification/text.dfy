/**
 * String and sequence operations with the semantics of the Python and
 * JavaScript built-ins the modelled code relies on: substring search,
 * `split`/`join`, decimal formatting and parsing, clamped slicing and
 * negative indexing.
 */
module Text {
  import opened Wrappers

  /** `sub` occurs in `s` starting at index `i`. */
  predicate OccursAt(s: string, sub: string, i: nat) {
    i + |sub| <= |s| && s[i..i + |sub|] == sub
  }

  /** First index at or after `from` where `sub` occurs. */
  function IndexFrom(s: string, sub: string, from: nat): (r: Option<nat>)
    decreases |s| - from
    ensures r.Some? ==> from <= r.value && OccursAt(s, sub, r.value)
    ensures forall j: nat :: from <= j && (r.None? || j < r.value) ==> !OccursAt(s, sub, j)
  {
    if from + |sub| > |s| then None
    else if s[from..from + |sub|] == sub then Some(from)
    else IndexFrom(s, sub, from + 1)
  }

  /** Python `str.find` / JavaScript `indexOf`: the first occurrence, if any. */
  function IndexOf(s: string, sub: string): Option<nat> {
    IndexFrom(s, sub, 0)
  }

  /** Python `sub in s` / JavaScript `s.includes(sub)`. */
  predicate Contains(s: string, sub: string) {
    IndexOf(s, sub).Some?
  }

  lemma ContainsIff(s: string, sub: string)
    ensures Contains(s, sub) <==> exists i: nat :: OccursAt(s, sub, i)
  {
    if Contains(s, sub) {
      assert OccursAt(s, sub, IndexOf(s, sub).value);
    }
  }

  /** An occurrence inside a part is an occurrence in the whole. */
  lemma ContainsWithin(s: string, sub: string, lo: nat, hi: nat)
    requires lo <= hi <= |s|
    requires Contains(s[lo..hi], sub)
    ensures Contains(s, sub)
  {
    var t := s[lo..hi];
    var i := IndexOf(t, sub).value;
    assert OccursAt(t, sub, i);
    var inPart, inWhole := t[i..i + |sub|], s[lo + i..lo + i + |sub|];
    assert inPart == inWhole by {
      forall k | 0 <= k < |sub| ensures inPart[k] == inWhole[k] {
        assert t[i + k] == s[lo + i + k];
      }
    }
    assert OccursAt(s, sub, lo + i);
    ContainsIff(s, sub);
  }

  /** `parts` joined with `sep` between consecutive parts (Python `sep.join`, JavaScript `join`). */
  function Join(parts: seq<string>, sep: string): string {
    if |parts| == 0 then ""
    else if |parts| == 1 then parts[0]
    else parts[0] + sep + Join(parts[1..], sep)
  }

  /** Python `s.split(sep)` and JavaScript `s.split(sep)` for a non-empty separator. */
  function Split(s: string, sep: string): (parts: seq<string>)
    requires |sep| > 0
    ensures |parts| >= 1
    decreases |s|
  {
    match IndexOf(s, sep)
    case None => [s]
    case Some(i) => [s[..i]] + Split(s[i + |sep|..], sep)
  }

  /** Joining the parts of a split with the same separator gives back the string. */
  lemma {:induction false} JoinSplit(s: string, sep: string)
    requires |sep| > 0
    ensures Join(Split(s, sep), sep) == s
    decreases |s|
  {
    match IndexOf(s, sep)
    case None =>
    case Some(i) =>
      var rest := s[i + |sep|..];
      var tail := Split(rest, sep);
      assert Split(s, sep) == [s[..i]] + tail;
      JoinSplit(rest, sep);
      assert Join([s[..i]] + tail, sep) == s[..i] + sep + Join(tail, sep);
      assert s[i..i + |sep|] == sep;
      assert s == s[..i] + s[i..i + |sep|] + rest;
  }

  /** The first part of a split is the text before the first separator, or all of it. */
  lemma SplitHead(s: string, sep: string)
    requires |sep| > 0
    ensures IndexOf(s, sep).None? ==> Split(s, sep)[0] == s
    ensures IndexOf(s, sep).Some? ==> Split(s, sep)[0] == s[..IndexOf(s, sep).value]
  {
  }

  /** The first part of a split is a prefix of the string and holds no separator. */
  lemma SplitHeadNoSep(s: string, sep: string)
    requires |sep| > 0
    ensures Split(s, sep)[0] == s[..|Split(s, sep)[0]|]
    ensures !Contains(Split(s, sep)[0], sep)
  {
    var head := Split(s, sep)[0];
    SplitHead(s, sep);
    var r := IndexOf(s, sep);
    assert head == if r.None? then s else s[..r.value];
    forall j: nat | j + |sep| <= |head| ensures !OccursAt(head, sep, j) {
      assert head[j..j + |sep|] == s[j..j + |sep|];
      assert r.None? || j < r.value;
      assert !OccursAt(s, sep, j);
    }
    ContainsIff(head, sep);
  }

  /** A one-character separator first occurs at the first index holding that character. */
  lemma IndexOfChar(s: string, c: char, i: nat)
    requires i < |s| && s[i] == c
    requires forall j :: 0 <= j < i ==> s[j] != c
    ensures IndexOf(s, [c]) == Some(i)
  {
    assert OccursAt(s, [c], i);
    var r := IndexOf(s, [c]);
    assert r.Some? && r.value <= i;
    assert OccursAt(s, [c], r.value) && s[r.value] == c;
  }

  /** Splitting parts joined with a one-character separator none of them holds gives the parts back. */
  lemma {:induction false} SplitJoin(parts: seq<string>, c: char)
    requires |parts| >= 1
    requires forall k, j :: 0 <= k < |parts| && 0 <= j < |parts[k]| ==> parts[k][j] != c
    ensures Split(Join(parts, [c]), [c]) == parts
    decreases |parts|
  {
    var s := Join(parts, [c]);
    if |parts| == 1 {
      forall i: nat ensures !OccursAt(s, [c], i) {
        if i + 1 <= |s| {
          assert s[i..i + 1][0] == s[i] != c;
        }
      }
      ContainsIff(s, [c]);
    } else {
      var head, rest := parts[0], Join(parts[1..], [c]);
      assert s == head + [c] + rest;
      IndexOfChar(s, c, |head|);
      assert s[|head| + 1..] == rest;
      SplitJoin(parts[1..], c);
      assert s[..|head|] == head;
      assert parts == [head] + parts[1..];
    }
  }

  /** A string that does not contain the separator splits into itself alone. */
  lemma SplitNoSep(s: string, sep: string)
    requires |sep| > 0
    ensures !Contains(s, sep) ==> Split(s, sep) == [s]
  {
  }

  // ---------------------------------------------------------------------
  // Decimal numbers

  predicate IsDigit(c: char) {
    '0' <= c <= '9'
  }

  predicate AllDigits(s: string) {
    forall i :: 0 <= i < |s| ==> IsDigit(s[i])
  }

  function DigitChar(d: nat): (c: char)
    requires d < 10
    ensures IsDigit(c) && (c as int) - ('0' as int) == d
  {
    "0123456789"[d]
  }

  function DigitValue(c: char): nat
    requires IsDigit(c)
  {
    (c as int) - ('0' as int)
  }

  /** Python `str(n)` / `'{}'.format(n)` for a non-negative integer. */
  function NatToString(n: nat): (s: string)
    ensures |s| >= 1 && AllDigits(s)
  {
    if n < 10 then [DigitChar(n)] else NatToString(n / 10) + [DigitChar(n % 10)]
  }

  function DigitsValue(s: string): nat
    requires AllDigits(s)
  {
    if |s| == 0 then 0 else DigitsValue(s[..|s| - 1]) * 10 + DigitValue(s[|s| - 1])
  }

  /** The characters Python's `str.isspace` accepts; `int()` ignores them at both ends of its input. */
  predicate IsSpace(c: char) {
    var n := c as int;
    || n == 0x20 || 0x09 <= n <= 0x0D || 0x1C <= n <= 0x1F || n == 0x85 || n == 0xA0 || n == 0x1680
    || 0x2000 <= n <= 0x200A || n == 0x2028 || n == 0x2029 || n == 0x202F || n == 0x205F || n == 0x3000
  }

  /** The number of blanks `s` starts with. */
  function LeadingSpaces(s: string): (n: nat)
    ensures n <= |s|
    ensures forall i :: 0 <= i < n ==> IsSpace(s[i])
    ensures n < |s| ==> !IsSpace(s[n])
  {
    if |s| == 0 || !IsSpace(s[0]) then 0
    else
      var n := LeadingSpaces(s[1..]);
      assert forall i :: 1 <= i < n + 1 ==> s[i] == s[1..][i - 1];
      1 + n
  }

  /** The number of blanks `s` ends with. */
  function TrailingSpaces(s: string): (n: nat)
    ensures n <= |s|
    ensures forall i :: |s| - n <= i < |s| ==> IsSpace(s[i])
    ensures n < |s| ==> !IsSpace(s[|s| - 1 - n])
  {
    if |s| == 0 || !IsSpace(s[|s| - 1]) then 0
    else
      var n := TrailingSpaces(s[..|s| - 1]);
      assert forall i :: |s| - 1 - n <= i < |s| - 1 ==> s[i] == s[..|s| - 1][i];
      1 + n
  }

  /** Python `s.strip()`: `s` without its leading and trailing blanks. */
  function Strip(s: string): (t: string)
    ensures |t| <= |s|
    ensures |t| > 0 ==> !IsSpace(t[0]) && !IsSpace(t[|t| - 1])
  {
    var rest := s[LeadingSpaces(s)..];
    rest[..|rest| - TrailingSpaces(rest)]
  }

  /** Blanks before a text that starts with a non-blank are exactly its leading blanks. */
  lemma {:induction false} LeadingSpacesOf(a: string, t: string)
    requires forall i :: 0 <= i < |a| ==> IsSpace(a[i])
    requires |t| > 0 && !IsSpace(t[0])
    ensures LeadingSpaces(a + t) == |a|
  {
    if |a| > 0 {
      LeadingSpacesOf(a[1..], t);
      assert (a + t)[1..] == a[1..] + t;
    } else {
      assert a + t == t;
    }
  }

  /** Blanks after a text that ends with a non-blank are exactly its trailing blanks. */
  lemma {:induction false} TrailingSpacesOf(t: string, b: string)
    requires forall i :: 0 <= i < |b| ==> IsSpace(b[i])
    requires |t| > 0 && !IsSpace(t[|t| - 1])
    ensures TrailingSpaces(t + b) == |b|
  {
    if |b| > 0 {
      TrailingSpacesOf(t, b[..|b| - 1]);
      assert (t + b)[..|t + b| - 1] == t + b[..|b| - 1];
    } else {
      assert t + b == t;
    }
  }

  /** Stripping removes exactly the blanks around a text with non-blank ends. */
  lemma StripPadded(a: string, t: string, b: string)
    requires forall i :: 0 <= i < |a| ==> IsSpace(a[i])
    requires forall i :: 0 <= i < |b| ==> IsSpace(b[i])
    requires |t| > 0 && !IsSpace(t[0]) && !IsSpace(t[|t| - 1])
    ensures Strip(a + t + b) == t
  {
    var s := a + t + b;
    assert s == a + (t + b);
    LeadingSpacesOf(a, t + b);
    assert s[|a|..] == t + b;
    TrailingSpacesOf(t, b);
    assert (t + b)[..|t|] == t;
  }

  /** A decimal numeral as Python 2's `int()` reads one: one or more ASCII digits. */
  predicate IsNumeral(s: string) {
    |s| > 0 && AllDigits(s)
  }

  /** An unsigned numeral's value; None is the ValueError of anything else. */
  function ParseNat(s: string): Option<nat> {
    if IsNumeral(s) then Some(DigitsValue(s)) else None
  }

  /** Python `int(s)`: a numeral with an optional sign, blanks around it ignored. */
  function ParseInt(s: string): Option<int> {
    var t := Strip(s);
    if |t| > 0 && t[0] == '-' then
      match ParseNat(t[1..]) case Some(n) => Some(-(n as int)) case None => None
    else if |t| > 0 && t[0] == '+' then
      match ParseNat(t[1..]) case Some(n) => Some(n) case None => None
    else
      match ParseNat(t) case Some(n) => Some(n) case None => None
  }

  /** Parsing a formatted number gives the number back. */
  lemma {:induction false} ParseNatToString(n: nat)
    ensures ParseNat(NatToString(n)) == Some(n)
  {
    var s := NatToString(n);
    if n < 10 {
      assert s[..|s| - 1] == [];
    } else {
      ParseNatToString(n / 10);
      assert s[..|s| - 1] == NatToString(n / 10);
      assert DigitsValue(s) == (n / 10) * 10 + n % 10;
    }
    assert DigitsValue(s) == n;
    assert ParseNat(s) == Some(DigitsValue(s));
  }

  /** `int()` of a formatted number, with any blanks around it, gives the number back. */
  lemma ParseIntPadded(a: string, n: nat, b: string)
    requires forall i :: 0 <= i < |a| ==> IsSpace(a[i])
    requires forall i :: 0 <= i < |b| ==> IsSpace(b[i])
    ensures ParseInt(a + NatToString(n) + b) == Some(n)
  {
    var s := NatToString(n);
    StripPadded(a, s, b);
    ParseNatToString(n);
  }

  lemma ParseIntToString(n: nat)
    ensures ParseInt(NatToString(n)) == Some(n)
  {
    var s := NatToString(n);
    StripDigits(s);
    ParseNatToString(n);
    ParseIntUnsigned(s, n);
  }

  /** A run of digits has no blanks to strip. */
  lemma StripDigits(s: string)
    requires |s| > 0 && AllDigits(s)
    ensures Strip(s) == s
  {
    assert LeadingSpaces(s) == 0 && s[0..] == s;
    assert TrailingSpaces(s) == 0 && s[..|s|] == s;
  }

  /** Without blanks around it and without a sign, `int()` reads its input as an unsigned numeral. */
  lemma ParseIntUnsigned(s: string, n: nat)
    requires |s| > 0 && IsDigit(s[0]) && Strip(s) == s && ParseNat(s) == Some(n)
    ensures ParseInt(s) == Some(n)
  {
  }

  /** Python 2's `int()` refuses an underscore between digits: `int("1_0")` is a ValueError. */
  lemma ParseIntUnderscore(a: string, b: string)
    requires |a| > 0 && AllDigits(a) && |b| > 0 && AllDigits(b)
    ensures ParseInt(a + "_" + b) == None
  {
    var s := a + "_" + b;
    assert s[0] == a[0] && s[|s| - 1] == b[|b| - 1];
    StripUnpadded(s);
    assert s[|a|] == '_';
    assert !IsNumeral(s);
  }

  /** Text that neither starts nor ends with a blank has nothing to strip. */
  lemma StripUnpadded(s: string)
    requires |s| > 0 && !IsSpace(s[0]) && !IsSpace(s[|s| - 1])
    ensures Strip(s) == s
  {
    assert LeadingSpaces(s) == 0 && s[0..] == s;
    assert TrailingSpaces(s) == 0 && s[..|s|] == s;
  }

  /** A formatted number never contains a letter, so no separator made of letters. */
  lemma NatToStringHasNo(n: nat, sep: string)
    requires |sep| > 0 && !IsDigit(sep[0])
    ensures !Contains(NatToString(n), sep)
  {
    var s := NatToString(n);
    forall i: nat | i + |sep| <= |s| ensures !OccursAt(s, sep, i) {
      assert s[i..i + |sep|][0] == s[i];
    }
  }

  // ---------------------------------------------------------------------
  // Python slicing and indexing, JavaScript substring

  /** A Python slice bound: a negative bound counts from the end, and both are clamped to `[0, n]`. */
  function PyBound(i: int, n: nat): (k: nat)
    ensures k <= n
    ensures 0 <= i <= n ==> k == i
    ensures i > n ==> k == n
    ensures -(n as int) <= i < 0 ==> k == n + i
    ensures i < -(n as int) ==> k == 0
  {
    if i < 0 then (if n + i < 0 then 0 else n + i) else if i > n then n else i
  }

  /** Python `s[i:j]`: empty when the clamped start is not before the clamped end. */
  function PySlice<T>(s: seq<T>, i: int, j: int): (r: seq<T>)
    ensures 0 <= i <= j <= |s| ==> r == s[i..j]
    ensures 0 <= i <= |s| < j ==> r == s[i..]
    ensures |r| <= |s|
  {
    var lo, hi := PyBound(i, |s|), PyBound(j, |s|);
    if lo >= hi then [] else s[lo..hi]
  }

  /** Python `s[i]`, negative indices counting from the end; None is an IndexError. */
  function PyIndex<T>(s: seq<T>, i: int): (r: Option<T>)
    ensures r.Some? <==> -|s| <= i < |s|
    ensures 0 <= i < |s| ==> r == Some(s[i])
    ensures -|s| <= i < 0 ==> r == Some(s[|s| + i])
  {
    if 0 <= i < |s| then Some(s[i])
    else if -|s| <= i < 0 then Some(s[|s| + i])
    else None
  }

  /** JavaScript `s.substring(n)` / `s.substr(n)` for n >= 0: empty when n is past the end. */
  function SuffixFrom(s: string, n: nat): (r: string)
    ensures n <= |s| ==> r == s[n..]
    ensures n > |s| ==> r == ""
  {
    if n <= |s| then s[n..] else ""
  }
}
