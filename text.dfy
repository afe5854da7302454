/**
 * String helpers that mirror the Python built-ins the bot relies on:
 * ASCII case mapping, decimal and hexadecimal rendering and parsing,
 * `str.join`, splitting on one character, `str.splitlines`, `str.isspace`
 * and slice bounds with negative indices.
 */
module Text {
  import opened Wrappers

  // ---------------------------------------------------------------- case

  function LowerChar(c: char): char {
    if 'A' <= c <= 'Z' then (c as int + 32) as char else c
  }

  function UpperChar(c: char): char {
    if 'a' <= c <= 'z' then (c as int - 32) as char else c
  }

  /** `s.lower()`, restricted to the ASCII letters. */
  function Lower(s: string): string {
    seq(|s|, i requires 0 <= i < |s| => LowerChar(s[i]))
  }

  /** `s.upper()`, restricted to the ASCII letters. */
  function Upper(s: string): string {
    seq(|s|, i requires 0 <= i < |s| => UpperChar(s[i]))
  }

  /** Case-insensitive equality, character by character. */
  predicate CaseEq(a: string, b: string) {
    |a| == |b| && forall i :: 0 <= i < |a| ==> LowerChar(a[i]) == LowerChar(b[i])
  }

  /** `CaseEq` is the comparison `a.lower() == b.lower()`. */
  lemma CaseEqLower(a: string, b: string)
    ensures CaseEq(a, b) <==> Lower(a) == Lower(b)
  {
    if Lower(a) == Lower(b) {
      assert |a| == |Lower(a)| == |Lower(b)| == |b|;
      assert forall i :: 0 <= i < |a| ==> LowerChar(a[i]) == Lower(a)[i] == Lower(b)[i] == LowerChar(b[i]);
    }
    if CaseEq(a, b) {
      assert |Lower(a)| == |Lower(b)|;
      assert forall i :: 0 <= i < |a| ==> Lower(a)[i] == Lower(b)[i];
      assert Lower(a) == Lower(b);
    }
  }

  lemma {:induction false} LowerIdempotent(s: string)
    ensures Lower(Lower(s)) == Lower(s)
  {
    forall i | 0 <= i < |s| ensures Lower(Lower(s))[i] == Lower(s)[i] {
      var c := s[i];
      if 'A' <= c <= 'Z' {
        assert 'a' <= LowerChar(c) <= 'z';
      }
    }
  }

  /** Only letters have a different lower-case form, so a brace or a line break never matches anything else. */
  lemma LowerCharFixed(c: char, d: char)
    requires !('A' <= c <= 'Z') && !('a' <= c <= 'z')
    requires LowerChar(d) == LowerChar(c)
    ensures d == c
  {
  }

  // ------------------------------------------------------------ substrings

  /** Python's `sub in s`. */
  predicate Contains(s: string, sub: string) {
    exists i :: 0 <= i <= |s| && sub <= s[i..]
  }

  /** `s.find(c)` as an option: the first index holding `c` at or after `i`. */
  function FirstIndex(s: string, c: char, i: nat := 0): (r: Option<nat>)
    requires i <= |s|
    ensures r.Some? ==> i <= r.value < |s| && s[r.value] == c
    ensures r.Some? ==> forall j :: i <= j < r.value ==> s[j] != c
    ensures r.None? ==> forall j :: i <= j < |s| ==> s[j] != c
    decreases |s| - i
  {
    if i == |s| then None else if s[i] == c then Some(i) else FirstIndex(s, c, i + 1)
  }

  /** The first `c` in `s` is at `k` when `s[k]` is `c` and no earlier character is. */
  lemma FirstIndexIs(s: string, c: char, k: nat)
    requires k < |s| && s[k] == c && forall j :: 0 <= j < k ==> s[j] != c
    ensures FirstIndex(s, c) == Some(k)
  {
  }

  /** `s.rfind(c)` as an option: the last index holding `c` below `k`. */
  function LastIndex(s: string, c: char, k: nat): (r: Option<nat>)
    requires k <= |s|
    ensures r.Some? ==> r.value < k && s[r.value] == c
    ensures r.Some? ==> forall j :: r.value < j < k ==> s[j] != c
    ensures r.None? ==> forall j :: 0 <= j < k ==> s[j] != c
    decreases k
  {
    if k == 0 then None else if s[k - 1] == c then Some(k - 1) else LastIndex(s, c, k - 1)
  }

  /** `s.removesuffix(suffix)`. */
  function RemoveSuffix(s: string, suffix: string): string {
    if |suffix| <= |s| && s[|s| - |suffix|..] == suffix then s[..|s| - |suffix|] else s
  }

  /** `s.removeprefix(prefix)`. */
  function RemovePrefix(s: string, prefix: string): string {
    if prefix <= s then s[|prefix|..] else s
  }

  /** `s.replace(c, "")` for a single character `c`. */
  function RemoveChar(s: string, c: char): (r: string)
    ensures c !in r
    ensures |r| <= |s|
    ensures c !in s ==> r == s
  {
    if s == [] then []
    else if s[0] == c then RemoveChar(s[1..], c)
    else [s[0]] + RemoveChar(s[1..], c)
  }

  /** Removing one character leaves every other character where it was present. */
  lemma {:induction false} RemoveCharOther(s: string, c: char, d: char)
    requires d != c
    ensures d in RemoveChar(s, c) <==> d in s
    decreases |s|
  {
    if s != [] {
      RemoveCharOther(s[1..], c, d);
      assert s == [s[0]] + s[1..];
    }
  }

  /** `s.replace(a, "").replace(b, "")`: every `a` and every `b` removed, everything else kept. */
  function RemoveTwo(s: string, a: char, b: char): (r: string)
    requires a != b
    ensures a !in r && b !in r
    ensures (a !in s && b !in s) ==> r == s
  {
    RemoveCharOther(RemoveChar(s, a), b, a);
    RemoveChar(RemoveChar(s, a), b)
  }

  // ----------------------------------------------------------- decimal

  predicate IsDigit(c: char) {
    '0' <= c <= '9'
  }

  predicate AllDigits(s: string) {
    forall i :: 0 <= i < |s| ==> IsDigit(s[i])
  }

  function DigitChar(d: nat): char
    requires d < 10
  {
    ('0' as int + d) as char
  }

  function DigitValue(c: char): nat
    requires IsDigit(c)
  {
    c as int - '0' as int
  }

  /** `str(n)` for a non-negative integer. */
  function NatToStr(n: nat): string
    decreases n
  {
    if n < 10 then [DigitChar(n)] else NatToStr(n / 10) + [DigitChar(n % 10)]
  }

  /** `int(s)` for a string of ASCII digits (leading zeros allowed). */
  function ParseNat(s: string): nat
    requires AllDigits(s)
  {
    if s == [] then 0 else ParseNat(s[..|s| - 1]) * 10 + DigitValue(s[|s| - 1])
  }

  /** `f"{n:0w}"`: left-pad with `c` to width `w`, the behaviour of `str.rjust`. */
  function PadLeft(s: string, w: nat, c: char): (r: string)
    ensures |r| == if |s| >= w then |s| else w
    ensures s <= r[|r| - |s|..]
  {
    if |s| >= w then s else seq(w - |s|, _ => c) + s
  }

  lemma {:induction false} NatToStrDigits(n: nat)
    ensures AllDigits(NatToStr(n)) && |NatToStr(n)| >= 1
    ensures ParseNat(NatToStr(n)) == n
    decreases n
  {
    if n >= 10 {
      NatToStrDigits(n / 10);
      var s := NatToStr(n);
      assert s[..|s| - 1] == NatToStr(n / 10);
    }
  }

  /** Rendering a number needs as many digits as the number has: 1 below 10, 2 below 100. */
  lemma NatToStrShort(n: nat)
    ensures n < 10 ==> |NatToStr(n)| == 1
    ensures 10 <= n < 100 ==> |NatToStr(n)| == 2
  {
  }

  lemma {:induction false} ParseNatZeros(k: nat)
    ensures AllDigits(seq(k, _ => '0')) && ParseNat(seq(k, _ => '0')) == 0
  {
    if k > 0 {
      ParseNatZeros(k - 1);
      assert seq(k, _ => '0')[..k - 1] == seq(k - 1, _ => '0');
    }
  }

  /** Leading zeros do not change the parsed value, so zero-padded fields parse back. */
  lemma {:induction false} ParseNatLeadingZeros(z: string, s: string)
    requires AllDigits(s)
    requires forall i :: 0 <= i < |z| ==> z[i] == '0'
    ensures AllDigits(z + s) && ParseNat(z + s) == ParseNat(s)
    decreases |s|
  {
    if s == [] {
      assert z == seq(|z|, _ => '0');
      ParseNatZeros(|z|);
      assert z + s == z;
    } else {
      ParseNatLeadingZeros(z, s[..|s| - 1]);
      assert (z + s)[..|z + s| - 1] == z + s[..|s| - 1];
    }
  }

  lemma PadNatRoundTrip(n: nat, w: nat)
    ensures AllDigits(PadLeft(NatToStr(n), w, '0'))
    ensures ParseNat(PadLeft(NatToStr(n), w, '0')) == n
  {
    NatToStrDigits(n);
    var s := NatToStr(n);
    if |s| < w {
      ParseNatLeadingZeros(seq(w - |s|, _ => '0'), s);
    }
  }

  /** The digits of `s` that start at index `i`, as far as they run. */
  function DigitRunEnd(s: string, i: nat): (j: nat)
    requires i <= |s|
    ensures i <= j <= |s|
    ensures AllDigits(s[i..j])
    ensures j == |s| || !IsDigit(s[j])
    decreases |s| - i
  {
    if i < |s| && IsDigit(s[i]) then DigitRunEnd(s, i + 1) else i
  }

  // ------------------------------------------------------------- hex

  function HexDigitChar(d: nat): char
    requires d < 16
  {
    if d < 10 then ('0' as int + d) as char else ('a' as int + d - 10) as char
  }

  predicate IsHexDigit(c: char) {
    '0' <= c <= '9' || 'a' <= c <= 'f'
  }

  function HexDigitValue(c: char): nat
    requires IsHexDigit(c)
  {
    if '0' <= c <= '9' then c as int - '0' as int else c as int - 'a' as int + 10
  }

  /** `hex(n)` without its `0x` prefix, for a non-negative `n`. */
  function NatToHex(n: nat): string
    decreases n
  {
    if n < 16 then [HexDigitChar(n)] else NatToHex(n / 16) + [HexDigitChar(n % 16)]
  }

  /** `int(s, 16)` for lower-case hex digits. */
  function ParseHex(s: string): nat
    requires forall i :: 0 <= i < |s| ==> IsHexDigit(s[i])
  {
    if s == [] then 0 else ParseHex(s[..|s| - 1]) * 16 + HexDigitValue(s[|s| - 1])
  }

  lemma {:induction false} NatToHexRoundTrip(n: nat)
    ensures |NatToHex(n)| >= 1
    ensures forall i :: 0 <= i < |NatToHex(n)| ==> IsHexDigit(NatToHex(n)[i])
    ensures ParseHex(NatToHex(n)) == n
    decreases n
  {
    var s := NatToHex(n);
    if n >= 16 {
      NatToHexRoundTrip(n / 16);
      assert s[..|s| - 1] == NatToHex(n / 16);
      assert s[|s| - 1] == HexDigitChar(n % 16);
      assert (n / 16) * 16 + n % 16 == n;
    }
  }

  lemma {:induction false} ParseHexLeadingZero(s: string)
    requires forall i :: 0 <= i < |s| ==> IsHexDigit(s[i])
    ensures ParseHex("0" + s) == ParseHex(s)
    decreases |s|
  {
    if s == [] {
      assert ("0" + s)[..0] == [];
    } else {
      ParseHexLeadingZero(s[..|s| - 1]);
      assert ("0" + s)[..|"0" + s| - 1] == "0" + s[..|s| - 1];
    }
  }

  // ------------------------------------------------------ join and split

  /** `sep.join(parts)`. */
  function Join(parts: seq<string>, sep: string): string {
    if |parts| == 0 then ""
    else if |parts| == 1 then parts[0]
    else parts[0] + sep + Join(parts[1..], sep)
  }

  /** Split at every occurrence of `c`, keeping empty pieces (`s.split(c)`). */
  function SplitOn(s: string, c: char): (r: seq<string>)
    ensures |r| >= 1
    decreases |s|
  {
    if |s| == 0 then [""]
    else
      var rest := SplitOn(s[1..], c);
      if s[0] == c then [""] + rest else [[s[0]] + rest[0]] + rest[1..]
  }

  lemma {:induction false} SplitOnNoSep(s: string, c: char)
    requires c !in s
    ensures SplitOn(s, c) == [s]
    decreases |s|
  {
    if |s| > 0 {
      SplitOnNoSep(s[1..], c);
      assert [s[0]] + s[1..] == s;
    }
  }

  lemma {:induction false} SplitOnConcat(a: string, b: string, c: char)
    requires c !in a
    ensures SplitOn(a + [c] + b, c) == [a] + SplitOn(b, c)
    decreases |a|
  {
    if |a| == 0 {
      assert a + [c] + b == [c] + b;
      assert ([c] + b)[1..] == b;
    } else {
      SplitOnConcat(a[1..], b, c);
      assert (a + [c] + b)[1..] == a[1..] + [c] + b;
      assert [a[0]] + a[1..] == a;
    }
  }

  /** Splitting a joined list at the separator gives the list back, when no piece holds it. */
  lemma {:induction false} SplitJoinRoundTrip(parts: seq<string>, c: char)
    requires |parts| >= 1
    requires forall i :: 0 <= i < |parts| ==> c !in parts[i]
    ensures SplitOn(Join(parts, [c]), c) == parts
    decreases |parts|
  {
    if |parts| == 1 {
      SplitOnNoSep(parts[0], c);
    } else {
      SplitJoinRoundTrip(parts[1..], c);
      SplitOnConcat(parts[0], Join(parts[1..], [c]), c);
      assert [parts[0]] + parts[1..] == parts;
    }
  }

  // --------------------------------------------- Python str.splitlines()

  /** The characters `str.splitlines` treats as line boundaries. */
  predicate IsLineBoundary(c: char) {
    c == '\n' || c == '\r' || c == '\U{B}' || c == '\U{C}' || c == '\U{1C}' || c == '\U{1D}'
    || c == '\U{1E}' || c == '\U{85}' || c == '\U{2028}' || c == '\U{2029}'
  }

  predicate NoLineBoundary(s: string) {
    forall i :: 0 <= i < |s| ==> !IsLineBoundary(s[i])
  }

  /** Index of the first line boundary at or after `i`, or `|s|`. */
  function LineEnd(s: string, i: nat): (k: nat)
    requires i <= |s|
    ensures i <= k <= |s|
    ensures k < |s| ==> IsLineBoundary(s[k])
    ensures forall j :: i <= j < k ==> !IsLineBoundary(s[j])
    decreases |s| - i
  {
    if i == |s| || IsLineBoundary(s[i]) then i else LineEnd(s, i + 1)
  }

  /** `s.splitlines()`: `\r\n` counts as one boundary and a final boundary adds no empty line. */
  function SplitLines(s: string): seq<string>
    decreases |s|
  {
    if |s| == 0 then []
    else
      var k := LineEnd(s, 0);
      if k == |s| then [s]
      else
        var w := if s[k] == '\r' && k + 1 < |s| && s[k + 1] == '\n' then 2 else 1;
        [s[..k]] + SplitLines(s[k + w..])
  }

  lemma LineEndNone(s: string, i: nat)
    requires i <= |s|
    requires NoLineBoundary(s)
    ensures LineEnd(s, i) == |s|
    decreases |s| - i
  {
  }

  /** A line followed by `\n` and more text splits off as its own line. */
  lemma SplitLinesCons(a: string, rest: string)
    requires NoLineBoundary(a)
    ensures SplitLines(a + "\n" + rest) == [a] + SplitLines(rest)
  {
    var s := a + "\n" + rest;
    assert forall j :: 0 <= j < |a| ==> s[j] == a[j];
    LineEndAt(s, a);
    assert s[..|a|] == a;
    assert s[|a| + 1..] == rest;
  }

  lemma {:induction false} LineEndAt(s: string, a: string)
    requires NoLineBoundary(a)
    requires |a| < |s| && a <= s && IsLineBoundary(s[|a|])
    ensures LineEnd(s, 0) == |a|
  {
    LineEndFrom(s, a, 0);
  }

  lemma {:induction false} LineEndFrom(s: string, a: string, i: nat)
    requires NoLineBoundary(a)
    requires |a| < |s| && a <= s && IsLineBoundary(s[|a|])
    requires i <= |a|
    ensures LineEnd(s, i) == |a|
    decreases |a| - i
  {
    if i < |a| {
      assert s[i] == a[i];
      LineEndFrom(s, a, i + 1);
    }
  }

  // ---------------------------------------------------- Python str.isspace()

  /** The characters for which Python's `str.isspace` holds. */
  predicate IsPySpace(c: char) {
    c == ' ' || c == '\t' || c == '\n' || c == '\r' || c == '\U{B}' || c == '\U{C}'
    || ('\U{1C}' <= c <= '\U{1F}') || c == '\U{85}' || c == '\U{A0}' || c == '\U{1680}'
    || ('\U{2000}' <= c <= '\U{200A}') || c == '\U{2028}' || c == '\U{2029}'
    || c == '\U{202F}' || c == '\U{205F}' || c == '\U{3000}'
  }

  /** `s.isspace()`: non-empty and whitespace throughout. */
  predicate IsSpace(s: string) {
    |s| > 0 && forall i :: 0 <= i < |s| ==> IsPySpace(s[i])
  }

  // ------------------------------------------------- Python slice bounds

  /** Where a Python slice bound `i` lands in a sequence of length `n`. */
  function SliceBound(i: int, n: nat): (k: nat)
    ensures k <= n
    ensures 0 <= i <= n ==> k == i
  {
    if i < 0 then (if n + i < 0 then 0 else n + i) else if i > n then n else i
  }

  /** The index range `[lo, hi)` the slice `s[a:b]` covers. */
  function SliceRange(a: int, b: int, n: nat): (r: (nat, nat))
    ensures r.0 <= r.1 <= n
  {
    var lo := SliceBound(a, n);
    var hi := SliceBound(b, n);
    (lo, if hi < lo then lo else hi)
  }

  /** `s[a:b]`. */
  function PySlice<T>(s: seq<T>, a: int, b: int): seq<T> {
    var r := SliceRange(a, b, |s|);
    s[r.0..r.1]
  }
}
