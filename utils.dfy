// The utility cog's deterministic parts: the anagram finder over the word list, the `print`
// replacement used by `%repl`, and the currency command's refresh decision and code casing.

module Utils {
  import opened Wrappers
  import opened Text

  // ------------------------------------------------------------------ string order

  /** Python's `<` on strings: code point by code point, a proper prefix first. */
  predicate LexLess(a: string, b: string)
    decreases |a|
  {
    if |a| == 0 then |b| > 0
    else if |b| == 0 then false
    else a[0] < b[0] || (a[0] == b[0] && LexLess(a[1..], b[1..]))
  }

  lemma {:induction false} LexIrreflexive(a: string)
    ensures !LexLess(a, a)
    decreases |a|
  {
    if |a| > 0 {
      LexIrreflexive(a[1..]);
    }
  }

  /** Two different strings are ordered one way. */
  lemma {:induction false} LexTotal(a: string, b: string)
    requires a != b
    ensures LexLess(a, b) || LexLess(b, a)
    decreases |a|
  {
    if |a| > 0 && |b| > 0 && a[0] == b[0] {
      assert a == [a[0]] + a[1..] && b == [b[0]] + b[1..];
      LexTotal(a[1..], b[1..]);
    }
  }

  lemma {:induction false} LexTransitive(a: string, b: string, c: string)
    requires LexLess(a, b) && LexLess(b, c)
    ensures LexLess(a, c)
    decreases |a|
  {
    if |a| > 0 && a[0] == b[0] && b[0] == c[0] {
      LexTransitive(a[1..], b[1..], c[1..]);
    }
  }

  /** Strictly ascending: what `sorted` makes of a list without duplicates. */
  predicate Sorted(s: seq<string>) {
    forall i :: 0 <= i < |s| - 1 ==> LexLess(s[i], s[i + 1])
  }

  /** A strictly ascending list holds no string twice. */
  lemma {:induction false} SortedDistinct(s: seq<string>, i: nat, j: nat)
    requires Sorted(s) && i < j < |s|
    ensures LexLess(s[i], s[j]) && s[i] != s[j]
    decreases j - i
  {
    if j == i + 1 {
    } else {
      SortedDistinct(s, i + 1, j);
      LexTransitive(s[i], s[i + 1], s[j]);
    }
    if s[i] == s[j] {
      LexIrreflexive(s[i]);
    }
  }

  /** The strings a list holds. */
  function Elems(s: seq<string>): set<string> {
    set v | v in s
  }

  /** `x` put into its place in an ascending list. */
  function InsertSorted(x: string, s: seq<string>): seq<string> {
    if s == [] then [x]
    else if LexLess(x, s[0]) then [x] + s
    else [s[0]] + InsertSorted(x, s[1..])
  }

  /** Inserting a new string keeps the list ascending and adds exactly that string. */
  lemma {:induction false} InsertSortedKeeps(x: string, s: seq<string>)
    requires Sorted(s) && x !in s
    ensures Sorted(InsertSorted(x, s))
    ensures Elems(InsertSorted(x, s)) == Elems(s) + {x}
    ensures |InsertSorted(x, s)| == |s| + 1
    ensures InsertSorted(x, s)[0] == x || (s != [] && InsertSorted(x, s)[0] == s[0])
  {
    if s != [] && !LexLess(x, s[0]) {
      InsertSortedKeeps(x, s[1..]);
      LexTotal(x, s[0]);
      var t := InsertSorted(x, s[1..]);
      assert InsertSorted(x, s) == [s[0]] + t;
      assert LexLess(s[0], t[0]);
      assert s == [s[0]] + s[1..];
      assert Elems([s[0]] + t) == {s[0]} + Elems(t);
      assert Elems(s) == {s[0]} + Elems(s[1..]);
    } else if s != [] {
      assert Elems([x] + s) == {x} + Elems(s);
    }
  }

  // ------------------------------------------------------------------ anagrams

  /**
   * The test `get_anagrams` applies to a lower-cased word `w` and lower-cased letters `l`: no
   * letter of `w` is missing from `l`, and the letters whose count in `w` is within their count in
   * `l` are all the letters of `w`.
   */
  predicate FitsAsWritten(w: string, l: string) {
    Letters(multiset(w)) - Letters(multiset(l)) == {} &&
    WithinCount(multiset(w), multiset(l)) == Letters(multiset(w))
  }

  /** `set(s)`, from the letter counts. */
  function Letters(m: multiset<char>): set<char> {
    set c | c in m
  }

  /** The letters whose count in `wc` is at most their count in `lc`. */
  function WithinCount(wc: multiset<char>, lc: multiset<char>): set<char> {
    set k | k in wc && wc[k] <= lc[k]
  }

  /** The test amounts to inclusion of the letter multisets: `Counter(w) <= Counter(l)`. */
  lemma FitsIff(w: string, l: string)
    ensures FitsAsWritten(w, l) <==> multiset(w) <= multiset(l)
  {
    var wc, lc := multiset(w), multiset(l);
    if FitsAsWritten(w, l) {
      forall k
        ensures wc[k] <= lc[k]
      {
        if k in wc {
          assert k in Letters(wc);
          assert k in WithinCount(wc, lc);
        }
      }
    }
    if wc <= lc {
      assert WithinCount(wc, lc) == Letters(wc);
      assert forall c :: c in Letters(wc) ==> c in Letters(lc);
    }
  }

  /** `word` can be spelt, ignoring case, from `letters`, every letter used at most as often as it is there. */
  predicate AnagramOf(word: string, letters: string) {
    multiset(Lower(word)) <= multiset(Lower(letters))
  }

  /** The words of one length, under that length in the dictionary `get_anagrams` returns. */
  datatype Group = Group(length: nat, words: seq<string>)

  /** A non-empty ascending list of words of the group's length. */
  predicate GroupOk(g: Group) {
    |g.words| > 0 && Sorted(g.words) && forall w :: w in g.words ==> |w| == g.length
  }

  /** Keys strictly ascending, every group well formed. */
  predicate WellGrouped(r: seq<Group>) {
    r == [] || (GroupOk(r[0]) && (|r| > 1 ==> r[0].length < r[1].length) && WellGrouped(r[1..]))
  }

  /** Every word listed under some key. */
  function Words(r: seq<Group>): set<string> {
    if r == [] then {} else Elems(r[0].words) + Words(r[1..])
  }

  /** `w` filed under its length: a new group in key order, or its place in the group's list. */
  function InsertWord(r: seq<Group>, w: string): seq<Group> {
    if r == [] || |w| < r[0].length then [Group(|w|, [w])] + r
    else if |w| == r[0].length then [Group(|w|, InsertSorted(w, r[0].words))] + r[1..]
    else [r[0]] + InsertWord(r[1..], w)
  }

  /** A new word of the group's length, put into its place in the group's list. */
  lemma InsertIntoGroup(g: Group, w: string)
    requires GroupOk(g) && |w| == g.length && w !in Elems(g.words)
    ensures GroupOk(Group(|w|, InsertSorted(w, g.words)))
    ensures Elems(InsertSorted(w, g.words)) == Elems(g.words) + {w}
  {
    InsertSortedKeeps(w, g.words);
    var ins := InsertSorted(w, g.words);
    forall v | v in ins
      ensures |v| == |w|
    {
      assert v in Elems(ins);
    }
  }

  /** Filing a new word keeps the dictionary well grouped and adds exactly that word. */
  lemma {:induction false} InsertWordKeeps(r: seq<Group>, w: string)
    requires WellGrouped(r) && w !in Words(r)
    ensures WellGrouped(InsertWord(r, w))
    ensures Words(InsertWord(r, w)) == Words(r) + {w}
    ensures InsertWord(r, w)[0].length == if r == [] || |w| < r[0].length then |w| else r[0].length
  {
    var t := InsertWord(r, w);
    if r == [] || |w| < r[0].length {
      assert t[1..] == r;
      assert Elems([w]) == {w};
    } else if |w| == r[0].length {
      InsertIntoGroup(r[0], w);
      assert t[1..] == r[1..];
    } else {
      InsertWordKeeps(r[1..], w);
      assert t[1..] == InsertWord(r[1..], w);
    }
  }

  /** One step of filing the set `anagrams`: the word taken from the words not yet filed. */
  lemma FileWord(r: seq<Group>, w: string, anagrams: set<string>, rest: set<string>)
    requires WellGrouped(r) && Words(r) == anagrams - rest && w in rest && rest <= anagrams
    ensures WellGrouped(InsertWord(r, w)) && Words(InsertWord(r, w)) == anagrams - (rest - {w})
  {
    InsertWordKeeps(r, w);
  }

  // ------------------------------------------------------------------ currency

  /** `UPDATE_AFTER = timedelta(days=1)`, in microseconds. */
  const UpdateAfter: int := 86_400_000_000

  /**
   * Whether `%currency` asks the exchanger for fresh rates: when `latest` is given, when the
   * rates were never fetched, or when they are more than a day old. Times are microseconds.
   */
  function ForceUpdate(latest: bool, lastUpdated: Option<int>, now: int): bool {
    latest || lastUpdated.None? || now - lastUpdated.value > UpdateAfter
  }

  /** Without `latest`, cached rates are used exactly while they are at most a day old, and once stale they stay stale. */
  lemma ForceUpdateStale(lastUpdated: int, now: int, later: int)
    requires now <= later
    ensures !ForceUpdate(false, Some(lastUpdated), now) <==> now <= lastUpdated + UpdateAfter
    ensures ForceUpdate(false, Some(lastUpdated), now) ==> ForceUpdate(false, Some(lastUpdated), later)
    ensures ForceUpdate(true, Some(lastUpdated), now) && ForceUpdate(false, None, now)
  {
  }

  /** The currency codes as the exchanger receives them: upper-cased. */
  function CurrencyCodes(original: string, target: string): (r: (string, string))
    ensures r == (Upper(original), Upper(target))
    ensures |r.0| == |original| && |r.1| == |target|
    ensures forall i :: 0 <= i < |r.0| ==> r.0[i] == UpperChar(original[i]) && !('a' <= r.0[i] <= 'z')
    ensures forall i :: 0 <= i < |r.1| ==> r.1[i] == UpperChar(target[i]) && !('a' <= r.1[i] <= 'z')
  {
    (Upper(original), Upper(target))
  }

  /** Codes that differ only in case reach the exchanger as the same code, and normalising twice changes nothing. */
  lemma CurrencyCodesCase(a: string, b: string)
    requires CaseEq(a, b)
    ensures CurrencyCodes(a, b).0 == CurrencyCodes(b, a).0
    ensures CurrencyCodes(CurrencyCodes(a, b).0, CurrencyCodes(a, b).1) == CurrencyCodes(a, b)
  {
    assert forall i :: 0 <= i < |a| ==> Upper(a)[i] == UpperChar(a[i]) == UpperChar(b[i]) == Upper(b)[i];
    assert Upper(a) == Upper(b);
    UpperIdempotent(a);
    UpperIdempotent(b);
  }

  lemma UpperIdempotent(s: string)
    ensures Upper(Upper(s)) == Upper(s)
  {
    assert forall i :: 0 <= i < |s| ==> Upper(Upper(s))[i] == UpperChar(UpperChar(s[i])) == UpperChar(s[i]);
  }

  // ------------------------------------------------------------------ the cog

  /** The parts of the cog's state these commands touch: the word list and the `%repl` print buffer. */
  class UtilsCog {
    const words: seq<string>
    var textToPrint: Option<string>

    constructor(wordList: seq<string>)
      ensures words == wordList && textToPrint.None?
    {
      words := wordList;
      textToPrint := None;
    }

    /** `printer`, the `print` of `%repl`: the arguments' texts joined by `sep`, then `end`, kept for the reply. */
    method Printer(args: seq<string>, sep: string, end: string)
      modifies this
      ensures textToPrint == Some(Join(args, sep) + end)
    {
      textToPrint := Some(Join(args, sep) + end);
    }

    /**
     * `get_anagrams(letters)`: the words of the list that can be spelt from `letters` ignoring
     * case, in their own casing, each once, filed under their lengths in ascending order with
     * every list sorted.
     */
    method GetAnagrams(letters: string) returns (r: seq<Group>)
      ensures WellGrouped(r)
      ensures forall v :: v in Words(r) <==> v in words && AnagramOf(v, letters)
    {
      var anagrams := MatchingWords(letters);
      r := [];
      var rest := anagrams;
      while rest != {}
        invariant rest <= anagrams
        invariant WellGrouped(r)
        invariant Words(r) == anagrams - rest
        decreases |rest|
      {
        var w :| w in rest;
        FileWord(r, w, anagrams, rest);
        r := InsertWord(r, w);
        rest := rest - {w};
      }
      assert Words(r) == anagrams;
    }

    /** The first half of `get_anagrams`: the set of listed words that pass the letter-count test. */
    method MatchingWords(letters: string) returns (anagrams: set<string>)
      ensures forall v :: v in anagrams <==> v in words && AnagramOf(v, letters)
    {
      var lower := Lower(letters);
      anagrams := {};
      var i := 0;
      while i < |words|
        invariant 0 <= i <= |words|
        invariant forall v :: v in anagrams <==> v in words[..i] && AnagramOf(v, letters)
      {
        var word := words[i];
        FitsIff(Lower(word), lower);
        if FitsAsWritten(Lower(word), lower) {
          anagrams := anagrams + {word};
        }
        assert words[..i + 1] == words[..i] + [word];
        i := i + 1;
      }
      assert words[..i] == words;
    }
  }

  /** The `%repl` buffer, split at a one-character separator none of the arguments holds, gives the arguments back. */
  lemma PrinterSplits(args: seq<string>, c: char, end: string)
    requires |args| >= 1 && forall i :: 0 <= i < |args| ==> c !in args[i]
    ensures var printed := Join(args, [c]) + end; SplitOn(printed[..|printed| - |end|], c) == args
  {
    var printed := Join(args, [c]) + end;
    assert printed[..|printed| - |end|] == Join(args, [c]);
    SplitJoinRoundTrip(args, c);
  }
}
