/**
 * The text format in which a user's saved queues are kept, one block per queue:
 *
 *     {name}{
 *     id
 *     id}
 *
 * followed by a newline (an empty queue is `{name}{` then `}`). A saved queue is looked up by a
 * case-insensitive search for the block pattern `\{name\}\{(\nID)*\n?\}\n`, where ID is an
 * eleven-character YouTube video id; the block found is then split into lines and parsed.
 * The regular-expression search is modelled by the deterministic matcher `MatchBlock`.
 */
module SavedQueues {
  import opened Wrappers
  import opened Text

  // ------------------------------------------------------------- video ids

  /** One of the first ten characters of a video id, `[0-9A-Za-z_-]`. */
  predicate IsIdChar(c: char) {
    ('0' <= c <= '9') || ('A' <= c <= 'Z') || ('a' <= c <= 'z') || c == '_' || c == '-'
  }

  /** The last character of a video id, `[048AEIMQUYcgkosw]`, as the case-insensitive search reads it. */
  predicate IsIdLastChar(c: char) {
    c == '0' || c == '4' || c == '8'
    || LowerChar(c) in {'a', 'c', 'e', 'g', 'i', 'k', 'm', 'o', 'q', 's', 'u', 'w', 'y'}
  }

  predicate IsVideoId(s: string) {
    |s| == 11 && (forall i :: 0 <= i < 10 ==> IsIdChar(s[i])) && IsIdLastChar(s[10])
  }

  lemma VideoIdPlain(s: string)
    requires IsVideoId(s)
    ensures NoLineBoundary(s) && '{' !in s && '}' !in s && '\n' !in s
  {
    assert forall i :: 0 <= i < |s| ==> IsIdChar(s[i]) || IsIdLastChar(s[i]);
  }

  // ------------------------------------------------------------- serialising

  /** A queue name that the format can carry: the name setter has stripped its braces. */
  predicate ValidName(n: string) {
    '{' !in n && '}' !in n && NoLineBoundary(n)
  }

  /** The `name` setter of a queue: the name with every `{` and `}` removed. */
  function CleanName(s: string): string {
    RemoveTwo(s, '{', '}')
  }

  /** One saved queue: the name it was saved under and its video ids in order. */
  datatype SavedQueue = SavedQueue(name: string, ids: seq<string>)

  predicate ValidIds(ids: seq<string>) {
    forall i :: 0 <= i < |ids| ==> IsVideoId(ids[i])
  }

  predicate ValidBlock(b: SavedQueue) {
    ValidName(b.name) && ValidIds(b.ids)
  }

  predicate AllValid(blocks: seq<SavedQueue>) {
    forall i :: 0 <= i < |blocks| ==> ValidBlock(blocks[i])
  }

  /** `SongQueue.__repr__`: the block written for a queue. */
  function Repr(name: string, ids: seq<string>): string {
    "{" + name + "}{\n" + Join(ids, "\n") + "}\n"
  }

  /** A file made of the given blocks, one after another. */
  function Serialize(blocks: seq<SavedQueue>): string {
    if |blocks| == 0 then "" else Repr(blocks[0].name, blocks[0].ids) + Serialize(blocks[1..])
  }

  lemma {:induction false} SerializeConcat(a: seq<SavedQueue>, b: seq<SavedQueue>)
    ensures Serialize(a + b) == Serialize(a) + Serialize(b)
    decreases |a|
  {
    if |a| > 0 {
      assert (a + b)[1..] == a[1..] + b;
      SerializeConcat(a[1..], b);
      var r := Repr(a[0].name, a[0].ids);
      assert r + (Serialize(a[1..]) + Serialize(b)) == (r + Serialize(a[1..])) + Serialize(b);
    } else {
      assert a + b == b;
    }
  }

  lemma SerializeSplit(blocks: seq<SavedQueue>, k: nat)
    requires k < |blocks|
    ensures Serialize(blocks) == Serialize(blocks[..k]) + Repr(blocks[k].name, blocks[k].ids) + Serialize(blocks[k + 1..])
    ensures Serialize(blocks[..k + 1]) == Serialize(blocks[..k]) + Repr(blocks[k].name, blocks[k].ids)
  {
    SerializeStep(blocks, k);
    SerializeCut(blocks, k + 1);
  }

  lemma SerializeCut(blocks: seq<SavedQueue>, k: nat)
    requires k <= |blocks|
    ensures Serialize(blocks) == Serialize(blocks[..k]) + Serialize(blocks[k..])
  {
    assert blocks == blocks[..k] + blocks[k..];
    SerializeConcat(blocks[..k], blocks[k..]);
  }

  lemma SerializeStep(blocks: seq<SavedQueue>, k: nat)
    requires k < |blocks|
    ensures Serialize(blocks[..k + 1]) == Serialize(blocks[..k]) + Repr(blocks[k].name, blocks[k].ids)
  {
    assert blocks[..k + 1] == blocks[..k] + [blocks[k]];
    SerializeConcat(blocks[..k], [blocks[k]]);
    SerializeOne(blocks[k]);
  }

  lemma SerializeOne(b: SavedQueue)
    ensures Serialize([b]) == Repr(b.name, b.ids)
  {
    assert [b][1..] == [];
  }

  // ------------------------------------------------------------- the search

  /** The closing `}` and newline. */
  function MatchClose(t: string): (r: Option<nat>)
    ensures r.Some? ==> r.value <= |t|
  {
    if |t| >= 2 && t[0] == '}' && t[1] == '\n' then Some(2) else None
  }

  /**
   * `(\nID)*\n?\}\n` at the start of `t`: the length matched. The repetition is greedy; giving
   * back repetitions never helps, because after a newline that begins an id the next character
   * is an id character and not the closing brace.
   */
  function MatchIds(t: string): (r: Option<nat>)
    ensures r.Some? ==> r.value <= |t|
    decreases |t|
  {
    if |t| >= 12 && t[0] == '\n' && IsVideoId(t[1..12]) then
      match MatchIds(t[12..])
      case None => None
      case Some(k) => Some(12 + k)
    else if |t| >= 1 && t[0] == '\n' then
      match MatchClose(t[1..])
      case None => None
      case Some(k) => Some(1 + k)
    else MatchClose(t)
  }

  /** The whole block pattern for `name` at the start of `t`, the name compared case-insensitively. */
  function MatchBlock(t: string, name: string): (r: Option<nat>)
    ensures r.Some? ==> r.value <= |t|
  {
    var n := |name|;
    if n + 3 <= |t| && t[0] == '{' && CaseEq(t[1..n + 1], name) && t[n + 1] == '}' && t[n + 2] == '{' then
      match MatchIds(t[n + 3..])
      case None => None
      case Some(k) => Some(n + 3 + k)
    else None
  }

  /** `re.search`: the span of the leftmost match starting at or after `i`. */
  function Search(content: string, name: string, i: nat): (r: Option<(nat, nat)>)
    requires i <= |content|
    ensures r.Some? ==> i <= r.value.0 <= r.value.1 <= |content|
    decreases |content| - i
  {
    match MatchBlock(content[i..], name)
    case Some(k) => Some((i, i + k))
    case None => if i == |content| then None else Search(content, name, i + 1)
  }

  /** `SongQueue.get_repr_span`: where the first block saved under `name` sits in the file. */
  function GetReprSpan(content: string, name: string): (r: Option<(nat, nat)>)
    ensures r.Some? ==> r.value.0 <= r.value.1 <= |content|
  {
    Search(content, name, 0)
  }

  /**
   * The search finds the leftmost position at or after `i` where the block pattern matches, and
   * the span is what the pattern matched there.
   */
  lemma {:induction false} SearchLeftmost(content: string, name: string, i: nat)
    requires i <= |content|
    ensures var r := Search(content, name, i);
      r.Some? ==> (MatchBlock(content[r.value.0..], name) == Some(r.value.1 - r.value.0) &&
        forall j :: i <= j < r.value.0 ==> MatchBlock(content[j..], name).None?)
    decreases |content| - i
  {
    if MatchBlock(content[i..], name).None? && i < |content| {
      SearchLeftmost(content, name, i + 1);
    }
  }

  /** The search finds nothing exactly when the block pattern matches at no position from `i` on. */
  lemma {:induction false} SearchNoneIff(content: string, name: string, i: nat)
    requires i <= |content|
    ensures Search(content, name, i).None? <==> forall j :: i <= j <= |content| ==> MatchBlock(content[j..], name).None?
    decreases |content| - i
  {
    if MatchBlock(content[i..], name).None? && i < |content| {
      SearchNoneIff(content, name, i + 1);
    }
  }

  /** `get_repr_span` gives the span of the first match in the file, and `None` exactly when the pattern matches nowhere. */
  lemma GetReprSpanFirst(content: string, name: string)
    ensures var r := GetReprSpan(content, name);
      r.Some? ==> (MatchBlock(content[r.value.0..], name) == Some(r.value.1 - r.value.0) &&
        forall j :: 0 <= j < r.value.0 ==> MatchBlock(content[j..], name).None?)
    ensures GetReprSpan(content, name).None? <==> forall j :: 0 <= j <= |content| ==> MatchBlock(content[j..], name).None?
  {
    SearchLeftmost(content, name, 0);
    SearchNoneIff(content, name, 0);
  }

  // ------------------------------------------------------------- parsing

  /** The outcome of looking up a saved queue: absent, found, or an exception escapes. */
  datatype Lookup = NotSaved | Saved(savedName: string, ids: seq<string>) | Raises

  /**
   * The line parsing of `get_saved_contents`: the name is the first line from its second
   * character up to its first `}`, and every later line, less one trailing `}`, is an id; a
   * final empty id is dropped. A first line with no `}` raises ValueError, and a block of one
   * line (`{name}{}`) raises IndexError when the last id is inspected.
   */
  function ParseBlock(block: string): Lookup {
    var lines := SplitLines(block);
    if |lines| == 0 then Raises
    else
      match FirstIndex(lines[0], '}')
      case None => Raises
      case Some(j) =>
        var name := PySlice(lines[0], 1, j);
        var ids := StripBraces(lines[1..]);
        if |ids| == 0 then Raises
        else if ids[|ids| - 1] == "" then Saved(name, ids[..|ids| - 1])
        else Saved(name, ids)
  }

  /** Every line less one trailing `}`. */
  function StripBraces(lines: seq<string>): (r: seq<string>)
    ensures |r| == |lines|
  {
    seq(|lines|, i requires 0 <= i < |lines| => RemoveSuffix(lines[i], "}"))
  }

  /** `SongQueue.get_saved_contents`: the first block saved under `name`, parsed. */
  function GetSavedContents(content: string, name: string): Lookup {
    match Search(content, name, 0)
    case None => NotSaved
    case Some(span) => ParseBlock(content[span.0..span.1])
  }

  /** The lines of the id part of a block: the ids, the last carrying the closing brace. */
  function IdLines(ids: seq<string>): seq<string> {
    if |ids| == 0 then ["}"] else ids[..|ids| - 1] + [ids[|ids| - 1] + "}"]
  }

  lemma {:induction false} SplitLinesIds(ids: seq<string>)
    requires ValidIds(ids)
    ensures SplitLines(Join(ids, "\n") + "}\n") == IdLines(ids)
    decreases |ids|
  {
    if |ids| == 0 {
      assert Join(ids, "\n") + "}\n" == "}" + "\n" + "";
      SplitLinesCons("}", "");
    } else if |ids| == 1 {
      VideoIdPlain(ids[0]);
      assert Join(ids, "\n") + "}\n" == (ids[0] + "}") + "\n" + "";
      SplitLinesCons(ids[0] + "}", "");
    } else {
      VideoIdPlain(ids[0]);
      var tail := ids[1..];
      assert ValidIds(tail);
      IdsText(ids, "}\n");
      SplitLinesCons(ids[0], Join(tail, "\n") + "}\n");
      SplitLinesIds(tail);
      IdLinesCons(ids);
    }
  }

  lemma IdsText(ids: seq<string>, t: string)
    requires |ids| >= 2
    ensures Join(ids, "\n") + t == ids[0] + "\n" + (Join(ids[1..], "\n") + t)
  {
    JoinText(ids, "\n", t);
  }

  lemma JoinText(parts: seq<string>, sep: string, t: string)
    requires |parts| >= 2
    ensures Join(parts, sep) + t == parts[0] + sep + (Join(parts[1..], sep) + t)
  {
    var j := Join(parts[1..], sep);
    assert Join(parts, sep) == parts[0] + sep + j;
    assert parts[0] + sep + j + t == parts[0] + sep + (j + t);
  }

  lemma IdLinesCons(ids: seq<string>)
    requires |ids| >= 2
    ensures IdLines(ids) == [ids[0]] + IdLines(ids[1..])
  {
    var tail := ids[1..];
    assert tail[..|tail| - 1] == ids[1..|ids| - 1];
    assert ids[..|ids| - 1] == [ids[0]] + ids[1..|ids| - 1];
    assert tail[|tail| - 1] == ids[|ids| - 1];
  }

  lemma ReprLines(name: string, ids: seq<string>)
    requires ValidName(name) && ValidIds(ids)
    ensures SplitLines(Repr(name, ids)) == ["{" + name + "}{"] + IdLines(ids)
  {
    var first := "{" + name + "}{";
    assert NoLineBoundary(first);
    assert Repr(name, ids) == first + "\n" + (Join(ids, "\n") + "}\n");
    SplitLinesCons(first, Join(ids, "\n") + "}\n");
    SplitLinesIds(ids);
  }

  lemma FirstLineName(name: string)
    requires ValidName(name)
    ensures FirstIndex("{" + name + "}{", '}') == Some(|name| + 1)
    ensures PySlice("{" + name + "}{", 1, |name| + 1) == name
  {
    var first := "{" + name + "}{";
    forall j | 0 <= j < |name| + 1
      ensures first[j] != '}'
    {
      if j > 0 {
        assert first[j] == name[j - 1];
      }
    }
    assert first[|name| + 1] == '}';
    FirstIndexIs(first, '}', |name| + 1);
    assert SliceRange(1, |name| + 1, |first|) == (1, |name| + 1);
    assert first[1..|name| + 1] == name;
  }

  lemma StripIdLines(ids: seq<string>)
    requires ValidIds(ids)
    ensures StripBraces(IdLines(ids)) == if |ids| == 0 then [""] else ids
  {
    var lines := IdLines(ids);
    var parsed := StripBraces(lines);
    if |ids| > 0 {
      forall i | 0 <= i < |ids| ensures parsed[i] == ids[i] {
        VideoIdPlain(ids[i]);
        if i < |ids| - 1 {
          assert lines[i] == ids[i];
          assert ids[i][10] != '}';
        } else {
          assert lines[i] == ids[i] + "}";
          assert (ids[i] + "}")[..|ids[i]|] == ids[i];
        }
      }
    }
  }

  /** A written block parses back to the name and the ids it was written from. */
  lemma ParseRepr(name: string, ids: seq<string>)
    requires ValidName(name) && ValidIds(ids)
    ensures ParseBlock(Repr(name, ids)) == Saved(name, ids)
  {
    var first := "{" + name + "}{";
    ReprLines(name, ids);
    FirstLineName(name);
    StripIdLines(ids);
    var lines := [first] + IdLines(ids);
    assert lines[1..] == IdLines(ids);
    if |ids| > 0 {
      assert ids[|ids| - 1] != "" by {
        VideoIdPlain(ids[|ids| - 1]);
      }
    }
  }

  /** A block whose id part is empty and on the name's line matches but makes the parser raise. */
  lemma OneLineBlockRaises()
    ensures GetSavedContents("{a}{}\n", "a") == Raises
  {
    var c := "{a}{}\n";
    assert c[0..] == c;
    assert c[4..] == "}\n";
    assert MatchBlock(c[0..], "a") == Some(6);
    assert c[0..6] == "{a}" + "{}" + "\n" + "";
    SplitLinesCons("{a}{}", "");
  }

  // ------------------------------------------------------------- the search over a file

  /** An id after a newline is one repetition of the id pattern. */
  lemma MatchIdsStep(id: string, s: string)
    requires IsVideoId(id)
    ensures MatchIds("\n" + id + s) == match MatchIds(s) case None => None case Some(k) => Some(12 + k)
  {
    var t := "\n" + id + s;
    assert t[1..12] == id && t[12..] == s;
  }

  /** The closing brace, with or without the newline before it. */
  lemma MatchIdsClose(rest: string)
    ensures MatchIds("}\n" + rest) == Some(2)
    ensures MatchIds("\n}\n" + rest) == Some(3)
  {
    var t := "\n}\n" + rest;
    assert t[1] == '}' && !IsIdChar(t[1]);
    assert t[1..] == "}\n" + rest;
  }

  /** `MatchIdsRepr` for no ids: only the closing brace. */
  lemma MatchIdsReprNone(ids: seq<string>, rest: string)
    requires |ids| == 0
    ensures MatchIds("\n" + Join(ids, "\n") + "}\n" + rest) == Some(|Join(ids, "\n")| + 3)
  {
    MatchIdsClose(rest);
    assert "\n" + Join(ids, "\n") + "}\n" + rest == "\n}\n" + rest;
  }

  /** `MatchIdsRepr` for one id. */
  lemma MatchIdsReprOne(ids: seq<string>, rest: string)
    requires |ids| == 1 && IsVideoId(ids[0])
    ensures MatchIds("\n" + Join(ids, "\n") + "}\n" + rest) == Some(|Join(ids, "\n")| + 3)
  {
    MatchIdsClose(rest);
    MatchIdsStep(ids[0], "}\n" + rest);
    assert "\n" + Join(ids, "\n") + "}\n" + rest == "\n" + ids[0] + ("}\n" + rest);
  }

  /** `MatchIdsRepr` for several ids, from the match of all but the first. */
  lemma MatchIdsReprCons(ids: seq<string>, rest: string)
    requires |ids| > 1 && IsVideoId(ids[0])
    requires MatchIds("\n" + Join(ids[1..], "\n") + "}\n" + rest) == Some(|Join(ids[1..], "\n")| + 3)
    ensures MatchIds("\n" + Join(ids, "\n") + "}\n" + rest) == Some(|Join(ids, "\n")| + 3)
  {
    var after := "\n" + Join(ids[1..], "\n") + "}\n" + rest;
    MatchIdsStep(ids[0], after);
    assert Join(ids, "\n") == ids[0] + "\n" + Join(ids[1..], "\n");
    assert "\n" + Join(ids, "\n") + "}\n" + rest == "\n" + ids[0] + after;
  }

  /** The id pattern matches the id lines a block is saved with, through the closing brace. */
  lemma {:induction false} MatchIdsRepr(ids: seq<string>, rest: string)
    requires ValidIds(ids)
    ensures MatchIds("\n" + Join(ids, "\n") + "}\n" + rest) == Some(|Join(ids, "\n")| + 3)
    decreases |ids|
  {
    if |ids| == 0 {
      MatchIdsReprNone(ids, rest);
    } else if |ids| == 1 {
      MatchIdsReprOne(ids, rest);
    } else {
      assert ValidIds(ids[1..]);
      MatchIdsRepr(ids[1..], rest);
      MatchIdsReprCons(ids, rest);
    }
  }

  /** The pattern for a name matches a block saved under that name, whatever follows it. */
  lemma MatchBlockRepr(b: SavedQueue, q: string, rest: string)
    requires ValidBlock(b) && CaseEq(b.name, q)
    ensures MatchBlock(Repr(b.name, b.ids) + rest, q) == Some(|Repr(b.name, b.ids)|)
  {
    var t := Repr(b.name, b.ids) + rest;
    var n := |b.name|;
    assert t[1..n + 1] == b.name;
    assert t[n + 3..] == "\n" + Join(b.ids, "\n") + "}\n" + rest;
    MatchIdsRepr(b.ids, rest);
  }

  /** The only opening braces of a block are the two around its name. */
  lemma BlockBraces(b: SavedQueue, k: nat)
    requires ValidBlock(b) && k < |Repr(b.name, b.ids)|
    requires Repr(b.name, b.ids)[k] == '{'
    ensures k == 0 || k == |b.name| + 2
  {
    var head := "{" + b.name + "}{\n";
    var j := Join(b.ids, "\n");
    assert Repr(b.name, b.ids) == head + j + "}\n";
    if |head| <= k < |head| + |j| {
      assert j[k - |head|] == '{';
      JoinAvoids(b.ids, '{');
    }
  }

  lemma {:induction false} JoinAvoids(ids: seq<string>, c: char)
    requires ValidIds(ids) && (c == '{' || c == '}')
    ensures c !in Join(ids, "\n")
    decreases |ids|
  {
    if |ids| > 0 {
      VideoIdPlain(ids[0]);
      if |ids| > 1 {
        assert ValidIds(ids[1..]);
        JoinAvoids(ids[1..], c);
      }
    }
  }

  /** A block saved under another name is not matched at any of its positions. */
  lemma NoMatchInside(b: SavedQueue, q: string, rest: string, k: nat)
    requires ValidBlock(b) && ValidName(q) && !CaseEq(b.name, q)
    requires k < |Repr(b.name, b.ids)|
    ensures MatchBlock((Repr(b.name, b.ids) + rest)[k..], q) == None
  {
    var r := Repr(b.name, b.ids);
    var t := (r + rest)[k..];
    var n := |b.name|;
    if |q| + 3 <= |t| && t[0] == '{' && CaseEq(t[1..|q| + 1], q) && t[|q| + 1] == '}' {
      BlockBraces(b, k);
      if k == 0 {
        if |q| > n {
          assert t[n + 1] == '}';
          LowerCharFixed('}', q[n]);
        }
      } else if |q| > 0 {
        assert t[1] == '\n';
        LowerCharFixed('\n', q[0]);
      }
    }
  }

  /** Positions where nothing matches can be skipped. */
  lemma {:induction false} SearchSkip(c: string, q: string, i: nat, j: nat)
    requires i <= j <= |c|
    requires forall k :: i <= k < j ==> MatchBlock(c[k..], q) == None
    ensures Search(c, q, i) == Search(c, q, j)
    decreases j - i
  {
    if i < j {
      SearchSkip(c, q, i + 1, j);
    }
  }

  /** The index of the first block saved under a name equal to `q` up to case. */
  function FirstNamed(blocks: seq<SavedQueue>, q: string): (r: Option<nat>)
    ensures r.Some? ==> r.value < |blocks| && CaseEq(blocks[r.value].name, q)
    ensures r.Some? ==> forall i :: 0 <= i < r.value ==> !CaseEq(blocks[i].name, q)
    ensures r.None? ==> forall i :: 0 <= i < |blocks| ==> !CaseEq(blocks[i].name, q)
  {
    if |blocks| == 0 then None
    else if CaseEq(blocks[0].name, q) then Some(0)
    else match FirstNamed(blocks[1..], q)
      case None => None
      case Some(k) => Some(k + 1)
  }

  /** Where block `k` starts in a file of blocks: the total length of the blocks before it. */
  function Offset(blocks: seq<SavedQueue>, k: nat): nat
    requires k <= |blocks|
  {
    if k == 0 then 0 else |Repr(blocks[0].name, blocks[0].ids)| + Offset(blocks[1..], k - 1)
  }

  /** The span of block `k` in a file of blocks. */
  function BlockSpan(blocks: seq<SavedQueue>, k: nat): (nat, nat)
    requires k < |blocks|
  {
    (Offset(blocks, k), Offset(blocks, k + 1))
  }

  lemma SerializePrefix(blocks: seq<SavedQueue>, k: nat)
    requires k < |blocks|
    ensures Serialize(blocks[..k + 1]) == Repr(blocks[0].name, blocks[0].ids) + Serialize(blocks[1..][..k])
  {
    assert blocks[..k + 1][1..] == blocks[1..][..k];
  }

  lemma {:induction false} OffsetPrefix(blocks: seq<SavedQueue>, k: nat)
    requires k <= |blocks|
    ensures Offset(blocks, k) == |Serialize(blocks[..k])|
    decreases k
  {
    if k > 0 {
      OffsetPrefix(blocks[1..], k - 1);
      SerializePrefix(blocks, k - 1);
    }
  }

  /** Block `j` sits at its offset, followed by the blocks after it. */
  lemma SerializeAt(blocks: seq<SavedQueue>, j: nat)
    requires j < |blocks|
    ensures Offset(blocks, j + 1) == Offset(blocks, j) + |Repr(blocks[j].name, blocks[j].ids)|
    ensures Offset(blocks, j) <= |Serialize(blocks)|
    ensures Serialize(blocks)[Offset(blocks, j)..] ==
            Repr(blocks[j].name, blocks[j].ids) + Serialize(blocks[j + 1..])
  {
    SerializeSplit(blocks, j);
    OffsetPrefix(blocks, j);
    OffsetPrefix(blocks, j + 1);
  }

  lemma OffsetEnd(blocks: seq<SavedQueue>)
    ensures Offset(blocks, |blocks|) == |Serialize(blocks)|
  {
    OffsetPrefix(blocks, |blocks|);
    assert blocks[..|blocks|] == blocks;
  }

  /** Where a block saved under the name starts, the search stops. */
  lemma HeadBlockText(c: string, o: nat, b: SavedQueue, rest: string, q: string)
    requires o <= |c| && c[o..] == Repr(b.name, b.ids) + rest
    requires ValidBlock(b) && CaseEq(b.name, q)
    ensures Search(c, q, o) == Some((o, o + |Repr(b.name, b.ids)|))
  {
    MatchBlockRepr(b, q, rest);
  }

  /** Where a block saved under another name starts, the search carries on after it. */
  lemma SkipBlockText(c: string, o: nat, o': nat, b: SavedQueue, rest: string, q: string)
    requires o <= |c| && c[o..] == Repr(b.name, b.ids) + rest && o' == o + |Repr(b.name, b.ids)|
    requires ValidBlock(b) && ValidName(q) && !CaseEq(b.name, q)
    ensures o' <= |c|
    ensures Search(c, q, o) == Search(c, q, o')
  {
    forall k | o <= k < o' ensures MatchBlock(c[k..], q) == None {
      NoMatchAt(c, o, b, rest, q, k);
    }
    SearchSkip(c, q, o, o');
  }

  lemma NoMatchAt(c: string, o: nat, b: SavedQueue, rest: string, q: string, k: nat)
    requires o <= |c| && c[o..] == Repr(b.name, b.ids) + rest && o <= k < o + |Repr(b.name, b.ids)|
    requires ValidBlock(b) && ValidName(q) && !CaseEq(b.name, q)
    ensures MatchBlock(c[k..], q) == None
  {
    assert c[k..] == (Repr(b.name, b.ids) + rest)[k - o..];
    NoMatchInside(b, q, rest, k - o);
  }

  /** What searching from the start of block `j` finds: the first block from `j` on saved under the name. */
  predicate FoundFrom(c: string, blocks: seq<SavedQueue>, q: string, j: nat)
    requires j <= |blocks|
  {
    Offset(blocks, j) <= |c| &&
    match FirstNamed(blocks[j..], q)
    case None => Search(c, q, Offset(blocks, j)).None?
    case Some(k) => Search(c, q, Offset(blocks, j)) == Some(BlockSpan(blocks, j + k))
  }

  /** The file from the start of block `j` on holds the blocks from `j` on. */
  predicate SuffixFrom(c: string, blocks: seq<SavedQueue>, j: nat)
    requires j <= |blocks|
  {
    Offset(blocks, j) <= |c| && c[Offset(blocks, j)..] == Serialize(blocks[j..])
  }

  lemma {:induction false} OffsetStep(blocks: seq<SavedQueue>, j: nat)
    requires j < |blocks|
    ensures Offset(blocks, j + 1) == Offset(blocks, j) + |Repr(blocks[j].name, blocks[j].ids)|
    decreases j
  {
    if j > 0 {
      OffsetStep(blocks[1..], j - 1);
    }
  }

  lemma SuffixStep(c: string, blocks: seq<SavedQueue>, j: nat)
    requires j < |blocks| && SuffixFrom(c, blocks, j)
    ensures c[Offset(blocks, j)..] == Repr(blocks[j].name, blocks[j].ids) + Serialize(blocks[j + 1..])
    ensures Offset(blocks, j + 1) == Offset(blocks, j) + |Repr(blocks[j].name, blocks[j].ids)|
    ensures SuffixFrom(c, blocks, j + 1)
  {
    OffsetStep(blocks, j);
    assert blocks[j..][1..] == blocks[j + 1..];
    var o := Offset(blocks, j);
    var r := Repr(blocks[j].name, blocks[j].ids);
    assert c[o + |r|..] == c[o..][|r|..];
  }

  /** Searching a file of well-formed blocks from the start of any block finds the first block saved under the name. */
  lemma {:induction false} SearchFrom(c: string, blocks: seq<SavedQueue>, q: string, j: nat)
    requires j <= |blocks| && SuffixFrom(c, blocks, j) && AllValid(blocks) && ValidName(q)
    ensures FoundFrom(c, blocks, q, j)
    decreases |blocks| - j
  {
    if j == |blocks| {
      assert blocks[j..] == [];
      assert c[Offset(blocks, j)..] == [];
    } else if CaseEq(blocks[j].name, q) {
      SearchFromHead(c, blocks, q, j);
    } else {
      SuffixStep(c, blocks, j);
      SkipAt(c, blocks, q, j);
      SearchFrom(c, blocks, q, j + 1);
      SearchFromNext(c, blocks, q, j);
    }
  }

  lemma SearchFromHead(c: string, blocks: seq<SavedQueue>, q: string, j: nat)
    requires j < |blocks| && SuffixFrom(c, blocks, j) && ValidBlock(blocks[j]) && CaseEq(blocks[j].name, q)
    ensures FoundFrom(c, blocks, q, j)
  {
    SuffixStep(c, blocks, j);
    HeadBlockText(c, Offset(blocks, j), blocks[j], Serialize(blocks[j + 1..]), q);
    assert FirstNamed(blocks[j..], q) == Some(0);
  }

  lemma SkipAt(c: string, blocks: seq<SavedQueue>, q: string, j: nat)
    requires j < |blocks| && SuffixFrom(c, blocks, j) && ValidBlock(blocks[j]) && ValidName(q)
    requires !CaseEq(blocks[j].name, q)
    ensures Offset(blocks, j + 1) <= |c|
    ensures Search(c, q, Offset(blocks, j)) == Search(c, q, Offset(blocks, j + 1))
  {
    SuffixStep(c, blocks, j);
    SkipBlockText(c, Offset(blocks, j), Offset(blocks, j + 1), blocks[j], Serialize(blocks[j + 1..]), q);
  }

  lemma SearchFromNext(c: string, blocks: seq<SavedQueue>, q: string, j: nat)
    requires j < |blocks| && !CaseEq(blocks[j].name, q)
    requires Offset(blocks, j) <= |c|
    requires Offset(blocks, j + 1) <= |c|
    requires Search(c, q, Offset(blocks, j)) == Search(c, q, Offset(blocks, j + 1))
    requires FoundFrom(c, blocks, q, j + 1)
    ensures FoundFrom(c, blocks, q, j)
  {
    assert blocks[j..][1..] == blocks[j + 1..];
    var f := FirstNamed(blocks[j + 1..], q);
    assert FirstNamed(blocks[j..], q) == if f.None? then None else Some(f.value + 1);
  }

  /** The span found for a name in a file of well-formed blocks is that of the first block saved under it. */
  lemma GetReprSpanSerialized(blocks: seq<SavedQueue>, q: string)
    requires AllValid(blocks) && ValidName(q)
    ensures GetReprSpan(Serialize(blocks), q) ==
      match FirstNamed(blocks, q)
      case None => None
      case Some(k) => Some(BlockSpan(blocks, k))
  {
    var c := Serialize(blocks);
    assert SuffixFrom(c, blocks, 0) by {
      assert blocks[0..] == blocks;
      assert Offset(blocks, 0) == 0;
      assert c[0..] == c;
    }
    SearchFrom(c, blocks, q, 0);
    assert blocks[0..] == blocks;
  }

  /** Looking a name up in a file of well-formed blocks yields the first block saved under it. */
  lemma GetSavedContentsSerialized(blocks: seq<SavedQueue>, q: string)
    requires AllValid(blocks) && ValidName(q)
    ensures GetSavedContents(Serialize(blocks), q) ==
      match FirstNamed(blocks, q)
      case None => NotSaved
      case Some(k) => Saved(blocks[k].name, blocks[k].ids)
  {
    GetReprSpanSerialized(blocks, q);
    match FirstNamed(blocks, q)
    case None =>
    case Some(k) =>
      var r := Repr(blocks[k].name, blocks[k].ids);
      BlockText(blocks, k);
      assert ValidBlock(blocks[k]);
      ParseRepr(blocks[k].name, blocks[k].ids);
      LookupAt(Serialize(blocks), q, BlockSpan(blocks, k), r);
  }

  lemma LookupAt(c: string, q: string, span: (nat, nat), r: string)
    requires Search(c, q, 0) == Some(span) && span.0 <= span.1 <= |c| && c[span.0..span.1] == r
    ensures GetSavedContents(c, q) == ParseBlock(r)
  {
  }

  /** The span of block `k` in the file holds exactly that block's text. */
  lemma BlockText(blocks: seq<SavedQueue>, k: nat)
    requires k < |blocks|
    ensures Offset(blocks, k) <= Offset(blocks, k + 1) <= |Serialize(blocks)|
    ensures Serialize(blocks)[Offset(blocks, k)..Offset(blocks, k + 1)] == Repr(blocks[k].name, blocks[k].ids)
  {
    SerializeAt(blocks, k);
    SliceOfSuffix(Serialize(blocks), Offset(blocks, k), Offset(blocks, k + 1),
      Repr(blocks[k].name, blocks[k].ids), Serialize(blocks[k + 1..]));
  }

  lemma SliceOfSuffix(c: string, o: nat, e: nat, r: string, rest: string)
    requires o <= |c| && c[o..] == r + rest && e == o + |r|
    ensures e <= |c| && c[o..e] == r
  {
    assert c[o..e] == c[o..][..|r|];
  }

  /** The round trip for one block: what `__repr__` writes, the lookup reads back. */
  lemma GetSavedContentsRepr(name: string, ids: seq<string>, q: string)
    requires ValidName(name) && ValidIds(ids) && ValidName(q) && CaseEq(name, q)
    ensures GetSavedContents(Repr(name, ids), q) == Saved(name, ids)
  {
    var blocks := [SavedQueue(name, ids)];
    assert Serialize(blocks) == Repr(name, ids) by {
      assert blocks[1..] == [];
    }
    GetSavedContentsSerialized(blocks, q);
  }

  // ------------------------------------------------------------- the list of names

  /**
   * The name a line contributes to `get_names`: the pattern `\{.*\}` cannot cross a newline,
   * and within one line its leftmost-longest match runs from the first `{` to the last `}`.
   */
  function LineName(line: string): (r: Option<string>)
    ensures r.Some? ==> '{' in line && '}' in line
  {
    match FirstIndex(line, '{')
    case None => None
    case Some(a) =>
      match LastIndex(line, '}', |line|)
      case None => None
      case Some(b) => if a < b then Some(line[a + 1..b]) else None
  }

  function NamesOf(lines: seq<string>): seq<string> {
    if |lines| == 0 then []
    else match LineName(lines[0])
      case None => NamesOf(lines[1..])
      case Some(n) => [n] + NamesOf(lines[1..])
  }

  /** `SongQueue.get_names`: the text between the braces of every brace pair on a line. */
  function GetNames(content: string): seq<string> {
    NamesOf(SplitOn(content, '\n'))
  }

  lemma {:induction false} NamesOfConcat(a: seq<string>, b: seq<string>)
    ensures NamesOf(a + b) == NamesOf(a) + NamesOf(b)
    decreases |a|
  {
    if |a| > 0 {
      assert (a + b)[1..] == a[1..] + b;
      NamesOfConcat(a[1..], b);
      match LineName(a[0])
      case None =>
      case Some(n) => assert [n] + (NamesOf(a[1..]) + NamesOf(b)) == ([n] + NamesOf(a[1..])) + NamesOf(b);
    } else {
      assert a + b == b;
    }
  }

  lemma {:induction false} SplitOnIds(ids: seq<string>, tail: string, rest: string)
    requires ValidIds(ids) && tail == "}\n" + rest
    ensures SplitOn(Join(ids, "\n") + tail, '\n') == IdLines(ids) + SplitOn(rest, '\n')
    decreases |ids|
  {
    if |ids| == 0 {
      assert Join(ids, "\n") + tail == "}" + ['\n'] + rest;
      SplitOnConcat("}", rest, '\n');
    } else if |ids| == 1 {
      VideoIdPlain(ids[0]);
      assert Join(ids, "\n") + tail == (ids[0] + "}") + ['\n'] + rest;
      SplitOnConcat(ids[0] + "}", rest, '\n');
    } else {
      assert ValidIds(ids[1..]);
      SplitOnIds(ids[1..], tail, rest);
      SplitOnIdsStep(ids, tail, SplitOn(rest, '\n'));
    }
  }

  lemma SplitOnIdsStep(ids: seq<string>, tail: string, after: seq<string>)
    requires |ids| >= 2 && IsVideoId(ids[0])
    requires SplitOn(Join(ids[1..], "\n") + tail, '\n') == IdLines(ids[1..]) + after
    ensures SplitOn(Join(ids, "\n") + tail, '\n') == IdLines(ids) + after
  {
    VideoIdPlain(ids[0]);
    IdsText(ids, tail);
    SplitOnConcat(ids[0], Join(ids[1..], "\n") + tail, '\n');
    IdLinesCons(ids);
    assert [ids[0]] + (IdLines(ids[1..]) + after) == ([ids[0]] + IdLines(ids[1..])) + after;
  }

  lemma {:induction false} NamesOfIdLines(ids: seq<string>)
    requires ValidIds(ids)
    ensures NamesOf(IdLines(ids)) == []
    decreases |ids|
  {
    var lines := IdLines(ids);
    if |ids| > 0 {
      VideoIdPlain(ids[0]);
      assert LineName(lines[0]) == None;
      if |ids| > 1 {
        assert ValidIds(ids[1..]);
        assert lines[1..] == IdLines(ids[1..]);
        NamesOfIdLines(ids[1..]);
      }
    }
  }

  lemma HeaderLineName(name: string)
    requires ValidName(name)
    ensures LineName("{" + name + "}{") == Some(name)
  {
    var first := "{" + name + "}{";
    assert first[0] == '{';
    assert FirstIndex(first, '{') == Some(0);
    assert first[|name| + 1] == '}' && first[|name| + 2] == '{';
    assert LastIndex(first, '}', |first|) == Some(|name| + 1);
    assert first[1..|name| + 1] == name;
  }

  /** The lines of one block followed by more text: its header, its id lines, then the lines of the rest. */
  lemma BlockLines(name: string, ids: seq<string>, t: string)
    requires ValidName(name) && ValidIds(ids)
    ensures SplitOn(Repr(name, ids) + t, '\n') == ["{" + name + "}{"] + (IdLines(ids) + SplitOn(t, '\n'))
  {
    var first := "{" + name + "}{";
    var tail := "}\n" + t;
    var body := Join(ids, "\n") + tail;
    assert Repr(name, ids) + t == first + ['\n'] + body;
    SplitOnConcat(first, body, '\n');
    SplitOnIds(ids, tail, t);
  }

  /** One block contributes exactly its name to `get_names`. */
  lemma BlockNames(name: string, ids: seq<string>, t: string)
    requires ValidName(name) && ValidIds(ids)
    ensures NamesOf(SplitOn(Repr(name, ids) + t, '\n')) == [name] + NamesOf(SplitOn(t, '\n'))
  {
    var lines := SplitOn(Repr(name, ids) + t, '\n');
    var tail := IdLines(ids) + SplitOn(t, '\n');
    BlockLines(name, ids, t);
    HeaderLineName(name);
    assert lines[1..] == tail;
    NamesOfConcat(IdLines(ids), SplitOn(t, '\n'));
    NamesOfIdLines(ids);
    assert NamesOf(tail) == NamesOf(SplitOn(t, '\n'));
  }

  /** The names listed for a file of well-formed blocks are the blocks' names, in order. */
  lemma {:induction false} GetNamesSerialized(blocks: seq<SavedQueue>)
    requires AllValid(blocks)
    ensures GetNames(Serialize(blocks)) == seq(|blocks|, i requires 0 <= i < |blocks| => blocks[i].name)
    decreases |blocks|
  {
    if |blocks| > 0 {
      var rest := blocks[1..];
      assert ValidBlock(blocks[0]);
      assert AllValid(rest);
      BlockNames(blocks[0].name, blocks[0].ids, Serialize(rest));
      GetNamesSerialized(rest);
      var names := seq(|rest|, i requires 0 <= i < |rest| => rest[i].name);
      assert GetNames(Serialize(blocks)) == [blocks[0].name] + names;
      assert forall i :: 0 <= i < |blocks| ==> ([blocks[0].name] + names)[i] == blocks[i].name;
    }
  }

  // ------------------------------------------------------------- saving

  /** No two blocks are saved under names equal up to case. */
  predicate DistinctNames(blocks: seq<SavedQueue>) {
    forall i, j :: 0 <= i < j < |blocks| ==> !CaseEq(blocks[i].name, blocks[j].name)
  }

  /**
   * The file `savequeue` writes, or `None` when it writes nothing. A block already saved under
   * the name is replaced only when the owner answers yes (`response == Some(true)`); it is cut out
   * at the span found for the name it was saved under, and the new block is appended at the end.
   * Where the source raises (ValueError parsing the block, TypeError at `span[0]` when no span is
   * found for that name) nothing is written either, so those cases are `None` too.
   */
  function SaveFile(content: string, queueName: string, ids: seq<string>, response: Option<bool>): Option<string> {
    var block := Repr(CleanName(queueName), ids);
    match GetSavedContents(content, queueName)
    case Raises => None
    case NotSaved => Some(content + block)
    case Saved(existing, _) =>
      if response != Some(true) then None
      else match GetReprSpan(content, existing)
        case None => None
        case Some(span) => Some(content[..span.0] + content[span.1..] + block)
  }

  /**
   * In a file the bot wrote, the block a save is about to replace is always found again under
   * the name it was saved with, so the `span[0]` of the save never meets `None` there.
   */
  lemma SaveSpanFound(blocks: seq<SavedQueue>, q: string)
    requires AllValid(blocks) && ValidName(q)
    requires GetSavedContents(Serialize(blocks), q).Saved?
    ensures GetReprSpan(Serialize(blocks), GetSavedContents(Serialize(blocks), q).savedName).Some?
  {
    GetSavedContentsSerialized(blocks, q);
    var k := FirstNamed(blocks, q).value;
    GetReprSpanSerialized(blocks, blocks[k].name);
    assert CaseEq(blocks[k].name, blocks[k].name);
  }

  /** A file edited by hand whose only block is named `a}b`, with no ids. */
  const HandEdited: string := "{a}b}{\n}\n"

  /** The pattern for `a}b` matches the whole hand-edited file. */
  lemma HandEditedFound()
    ensures GetReprSpan(HandEdited, "a}b") == Some((0, 9))
  {
    var c := HandEdited;
    assert c[1..4] == "a}b";
    assert CaseEq(c[1..4], "a}b");
    assert c[6..] == "\n}\n";
    assert MatchIds(c[6..]) == Some(3) by {
      assert c[6..][1..] == "}\n";
    }
    assert c[0..] == c;
    assert MatchBlock(c[0..], "a}b") == Some(9);
  }

  /** The hand-edited file has two lines. */
  lemma HandEditedLines()
    ensures SplitLines(HandEdited) == ["{a}b}{", "}"]
  {
    assert NoLineBoundary("{a}b}{") by {
      forall i | 0 <= i < 6
        ensures !IsLineBoundary("{a}b}{"[i])
      {
        assert "{a}b}{"[i] in {'{', 'a', '}', 'b'};
      }
    }
    assert NoLineBoundary("}");
    assert HandEdited == "{a}b}{" + "\n" + ("}" + "\n" + "");
    SplitLinesCons("{a}b}{", "}" + "\n" + "");
    SplitLinesCons("}", "");
    assert SplitLines("") == [];
  }

  /** The block of the hand-edited file parses as saved under `a`, with no ids. */
  lemma HandEditedParsed()
    ensures ParseBlock(HandEdited) == Saved("a", [])
  {
    HandEditedLines();
    var lines := SplitLines(HandEdited);
    var first := lines[0];
    assert first == "{a}b}{";
    FirstIndexIs(first, '}', 2);
    assert PySlice(first, 1, 2) == first[1..2] == "a";
    assert lines[1..] == ["}"];
    assert RemoveSuffix("}", "}") == "";
    var ids := StripBraces(lines[1..]);
    assert ids == [""];
    assert ids[..|ids| - 1] == [];
  }

  /** Nowhere in the hand-edited file does the pattern for `a` match. */
  lemma HandEditedMissing()
    ensures GetReprSpan(HandEdited, "a").None?
  {
    var c := HandEdited;
    forall j | 0 <= j <= |c|
      ensures MatchBlock(c[j..], "a").None?
    {
      if j + 4 <= |c| {
        assert c[j..][0] == c[j] && c[j..][3] == c[j + 3];
        assert c[j..][1..2] == [c[j + 1]];
      }
    }
    SearchNoneIff(c, "a", 0);
  }

  /**
   * In a file edited by hand, a block whose name holds `}` is found for that name but saved under
   * the text before the `}`, which then finds nothing: the source raises TypeError at `span[0]`,
   * and nothing is written.
   */
  lemma SaveSpanMissing()
    ensures GetSavedContents(HandEdited, "a}b") == Saved("a", [])
    ensures GetReprSpan(HandEdited, "a").None?
    ensures SaveFile(HandEdited, "a}b", [], Some(true)).None?
  {
    HandEditedFound();
    HandEditedParsed();
    HandEditedMissing();
    assert HandEdited[0..9] == HandEdited;
  }

  lemma CaseEqSym(a: string, b: string)
    ensures CaseEq(a, b) <==> CaseEq(b, a)
  {
  }

  lemma CaseEqTrans(a: string, b: string, c: string)
    requires CaseEq(a, b)
    ensures CaseEq(b, c) <==> CaseEq(a, c)
  {
  }

  /** The blocks after a confirmed save of `ids` under `q`: any block under that name is dropped and the new one appended. */
  function SavedAfter(blocks: seq<SavedQueue>, q: string, ids: seq<string>): seq<SavedQueue> {
    match FirstNamed(blocks, q)
    case None => blocks + [SavedQueue(q, ids)]
    case Some(k) => blocks[..k] + blocks[k + 1..] + [SavedQueue(q, ids)]
  }

  /** The text `savequeue` writes is the file of the blocks after the save. */
  lemma SaveFileText(blocks: seq<SavedQueue>, q: string, ids: seq<string>)
    requires AllValid(blocks) && ValidName(q)
    ensures SaveFile(Serialize(blocks), q, ids, Some(true)) == Some(Serialize(SavedAfter(blocks, q, ids)))
  {
    match FirstNamed(blocks, q)
    case None => SaveFileNew(blocks, q, ids);
    case Some(k) => SaveFileReplace(blocks, q, ids, k);
  }

  lemma SaveFileNew(blocks: seq<SavedQueue>, q: string, ids: seq<string>)
    requires AllValid(blocks) && ValidName(q) && FirstNamed(blocks, q).None?
    ensures SaveFile(Serialize(blocks), q, ids, Some(true)) == Some(Serialize(blocks + [SavedQueue(q, ids)]))
  {
    GetSavedContentsSerialized(blocks, q);
    AppendText(blocks, SavedQueue(q, ids));
  }

  lemma SaveFileReplace(blocks: seq<SavedQueue>, q: string, ids: seq<string>, k: nat)
    requires AllValid(blocks) && ValidName(q) && FirstNamed(blocks, q) == Some(k)
    ensures k < |blocks|
    ensures SaveFile(Serialize(blocks), q, ids, Some(true)) ==
      Some(Serialize(blocks[..k] + blocks[k + 1..] + [SavedQueue(q, ids)]))
  {
    var existing := blocks[k].name;
    var c := Serialize(blocks);
    var span := BlockSpan(blocks, k);
    SpliceText(blocks, k, SavedQueue(q, ids));
    assert SaveFile(c, q, ids, Some(true)) == Some(c[..span.0] + c[span.1..] + Repr(q, ids)) by {
      assert ValidBlock(blocks[k]);
      GetSavedContentsSerialized(blocks, q);
      FirstNamedSame(blocks, q, existing);
      GetReprSpanSerialized(blocks, existing);
      SaveFileAt(c, q, ids, existing, blocks[k].ids, span);
    }
  }

  /** With the name saved and its span found, a confirmed save splices the span out and appends the block. */
  lemma SaveFileAt(c: string, q: string, ids: seq<string>, existing: string, old_ids: seq<string>, span: (nat, nat))
    requires ValidName(q)
    requires GetSavedContents(c, q) == Saved(existing, old_ids)
    requires GetReprSpan(c, existing) == Some(span)
    ensures SaveFile(c, q, ids, Some(true)) == Some(c[..span.0] + c[span.1..] + Repr(q, ids))
  {
  }

  lemma AppendText(blocks: seq<SavedQueue>, nb: SavedQueue)
    ensures Serialize(blocks) + Repr(nb.name, nb.ids) == Serialize(blocks + [nb])
  {
    SerializeOne(nb);
    SerializeConcat(blocks, [nb]);
  }

  /** Cutting block `k` out of the file at its span and appending a block gives the file of the remaining blocks plus that one. */
  lemma SpliceText(blocks: seq<SavedQueue>, k: nat, nb: SavedQueue)
    requires k < |blocks|
    ensures Offset(blocks, k) <= Offset(blocks, k + 1) <= |Serialize(blocks)|
    ensures var c := Serialize(blocks);
      c[..Offset(blocks, k)] + c[Offset(blocks, k + 1)..] + Repr(nb.name, nb.ids) ==
      Serialize(blocks[..k] + blocks[k + 1..] + [nb])
  {
    var c := Serialize(blocks);
    var x, y := Serialize(blocks[..k]), Serialize(blocks[k + 1..]);
    var r := Repr(blocks[k].name, blocks[k].ids);
    SerializeSplit(blocks, k);
    OffsetPrefix(blocks, k);
    OffsetPrefix(blocks, k + 1);
    CutParts(c, x, r, y, Offset(blocks, k), Offset(blocks, k + 1));
    SerializeConcat(blocks[..k], blocks[k + 1..]);
    AppendText(blocks[..k] + blocks[k + 1..], nb);
  }

  lemma CutParts(c: string, x: string, r: string, y: string, a: nat, e: nat)
    requires c == x + r + y && a == |x| && e == |x| + |r|
    ensures a <= e <= |c| && c[..a] == x && c[e..] == y
  {
  }

  /** After a save, no earlier block carries the name and the blocks stay well-formed and distinct. */
  lemma SavedAfterShape(blocks: seq<SavedQueue>, q: string, ids: seq<string>)
    requires AllValid(blocks) && DistinctNames(blocks) && ValidName(q) && ValidIds(ids)
    ensures var after := SavedAfter(blocks, q, ids);
      && |after| > 0 && after[|after| - 1] == SavedQueue(q, ids)
      && (forall i :: 0 <= i < |after| - 1 ==> !CaseEq(after[i].name, q))
      && AllValid(after) && DistinctNames(after)
  {
    var nb := SavedQueue(q, ids);
    match FirstNamed(blocks, q)
    case None =>
      AppendShape(blocks, nb);
    case Some(k) =>
      KeptShape(blocks, k, q);
      AppendShape(blocks[..k] + blocks[k + 1..], nb);
  }

  /** Dropping the first block named `q` leaves well-formed, distinct blocks none of which is named `q`. */
  lemma KeptShape(blocks: seq<SavedQueue>, k: nat, q: string)
    requires AllValid(blocks) && DistinctNames(blocks) && FirstNamed(blocks, q) == Some(k)
    ensures var kept := blocks[..k] + blocks[k + 1..];
      && AllValid(kept) && DistinctNames(kept)
      && forall i :: 0 <= i < |kept| ==> !CaseEq(kept[i].name, q)
  {
    var existing := blocks[k].name;
    var kept := blocks[..k] + blocks[k + 1..];
    assert forall i :: 0 <= i < |kept| ==> kept[i] == blocks[if i < k then i else i + 1];
    forall i | 0 <= i < |kept| ensures !CaseEq(kept[i].name, q) {
      var j := if i < k then i else i + 1;
      if j > k {
        CaseEqTrans(existing, q, blocks[j].name);
        CaseEqSym(q, blocks[j].name);
      }
    }
    forall i, j | 0 <= i < j < |kept| ensures !CaseEq(kept[i].name, kept[j].name) {
      var i' := if i < k then i else i + 1;
      var j' := if j < k then j else j + 1;
      assert kept[i] == blocks[i'] && kept[j] == blocks[j'];
    }
  }

  /** Appending a well-formed block under a name no block carries keeps the blocks well-formed and distinct. */
  lemma AppendShape(blocks: seq<SavedQueue>, nb: SavedQueue)
    requires AllValid(blocks) && DistinctNames(blocks) && ValidBlock(nb)
    requires forall i :: 0 <= i < |blocks| ==> !CaseEq(blocks[i].name, nb.name)
    ensures var after := blocks + [nb];
      && after[|after| - 1] == nb && after[..|after| - 1] == blocks
      && AllValid(after) && DistinctNames(after)
  {
    var after := blocks + [nb];
    assert forall i :: 0 <= i < |blocks| ==> after[i] == blocks[i];
    assert after[..|after| - 1] == blocks;
  }

  /**
   * Saving a queue under a fresh name appends its block; saving it under a name already in use,
   * once confirmed, removes the old block and appends the new one. Either way the file still
   * holds one block per name, and looking the name up now yields the queue just saved.
   */
  lemma SaveFileSerialized(blocks: seq<SavedQueue>, q: string, ids: seq<string>)
    requires AllValid(blocks) && DistinctNames(blocks) && ValidName(q) && ValidIds(ids)
    ensures SaveFile(Serialize(blocks), q, ids, Some(true)) == Some(Serialize(SavedAfter(blocks, q, ids)))
    ensures AllValid(SavedAfter(blocks, q, ids)) && DistinctNames(SavedAfter(blocks, q, ids))
    ensures GetSavedContents(Serialize(SavedAfter(blocks, q, ids)), q) == Saved(q, ids)
  {
    var after := SavedAfter(blocks, q, ids);
    SaveFileText(blocks, q, ids);
    SavedAfterShape(blocks, q, ids);
    assert after == after[..|after| - 1] + [SavedQueue(q, ids)];
    FirstNamedAppend(after[..|after| - 1], SavedQueue(q, ids), q);
    GetSavedContentsSerialized(after, q);
  }

  /** A file holding one empty queue saved as `ab`. */
  const SavedAb: string := "{ab}{\n}\n"

  lemma SavedAbBlocks()
    ensures Serialize([SavedQueue("ab", [])]) == SavedAb
  {
    var blocks := [SavedQueue("ab", [])];
    assert Repr("ab", []) == SavedAb;
    assert Serialize(blocks[1..]) == "";
  }

  /** The file of `ab` is well formed, and the name `A{b}` has no line break. */
  lemma SavedAbValid()
    ensures AllValid([SavedQueue("ab", [])]) && DistinctNames([SavedQueue("ab", [])])
    ensures NoLineBoundary("A{b}") && ValidIds([])
  {
    forall i | 0 <= i < 4
      ensures !IsLineBoundary("A{b}"[i])
    {
      assert "A{b}"[i] in {'A', '{', 'b', '}'};
    }
    forall i | 0 <= i < 2
      ensures !IsLineBoundary("ab"[i])
    {
      assert "ab"[i] in {'a', 'b'};
    }
  }

  /** The lookup pattern for `A{b}` holds braces, so it matches nowhere in that file. */
  lemma SavedAbMissesBraceName()
    ensures GetSavedContents(SavedAb, "A{b}") == NotSaved
  {
    var c := SavedAb;
    forall j | 0 <= j <= |c|
      ensures MatchBlock(c[j..], "A{b}").None?
    {
      if j == 0 {
        assert c[0..][2] == 'b';
        assert !CaseEq(c[0..][1..5], "A{b}") by {
          assert c[0..][1..5][1] == 'b';
          assert LowerChar('b') != LowerChar('{');
        }
      } else if j + 7 <= |c| {
        assert c[j..][0] == c[j] != '{';
      }
    }
    SearchNoneIff(c, "A{b}", 0);
  }

  lemma CleanNameBraces()
    ensures CleanName("A{b}") == "Ab"
  {
    assert "A{b}"[1..] == "{b}" && "{b}"[1..] == "b}" && "b}"[1..] == "}" && "}"[1..] == [];
    assert RemoveChar("A{b}", '{') == "Ab}";
    assert "Ab}"[1..] == "b}";
    assert RemoveChar("Ab}", '}') == "Ab";
  }

  /**
   * As written, `%savequeue A{b}` looks the name up with its braces but writes the block under
   * `Ab`: a file already holding `ab` is not asked about, and gains a second block named `Ab`,
   * equal up to case.
   */
  lemma SaveBraceNameDuplicates()
    ensures SaveFile(SavedAb, "A{b}", [], Some(true)) ==
      Some(Serialize([SavedQueue("ab", []), SavedQueue("Ab", [])]))
    ensures !DistinctNames([SavedQueue("ab", []), SavedQueue("Ab", [])])
  {
    SavedAbMissesBraceName();
    CleanNameBraces();
    SavedAbAppend();
    assert CaseEq("ab", "Ab");
  }

  /** Appending the block of `Ab` to the file of `ab` gives the file of both. */
  lemma SavedAbAppend()
    ensures SavedAb + Repr("Ab", []) == Serialize([SavedQueue("ab", []), SavedQueue("Ab", [])])
  {
    SavedAbBlocks();
    AppendText([SavedQueue("ab", [])], SavedQueue("Ab", []));
    assert [SavedQueue("ab", [])] + [SavedQueue("Ab", [])] == [SavedQueue("ab", []), SavedQueue("Ab", [])];
  }

  /** Looking up the name the block is written under, the same save replaces `ab` by `Ab`. */
  lemma SaveBraceNameFixed()
    ensures SaveFileFixed(SavedAb, "A{b}", [], Some(true)) == Some(Serialize([SavedQueue("Ab", [])]))
  {
    SavedAbBlocks();
    CleanNameBraces();
    SavedAbValid();
    var blocks := [SavedQueue("ab", [])];
    SaveFileFixedSerialized(blocks, "A{b}", []);
    assert CaseEq("ab", "Ab");
    assert FirstNamed(blocks, "Ab") == Some(0);
    assert blocks[..0] + blocks[1..] + [SavedQueue("Ab", [])] == [SavedQueue("Ab", [])];
  }

  /** Without line breaks, the name the block is written under is a valid block name. */
  lemma CleanNameValid(q: string)
    requires NoLineBoundary(q)
    ensures ValidName(CleanName(q))
  {
    var r := CleanName(q);
    forall i | 0 <= i < |r|
      ensures !IsLineBoundary(r[i])
    {
      var d := r[i];
      if d != '{' && d != '}' {
        RemoveCharOther(RemoveChar(q, '{'), '}', d);
        RemoveCharOther(q, '{', d);
        var j :| 0 <= j < |q| && q[j] == d;
      }
    }
  }

  /**
   * The save as intended: the existing block is looked up under the name the new block is
   * written under, `CleanName(queueName)`, so braces in the name change nothing.
   */
  function SaveFileFixed(content: string, queueName: string, ids: seq<string>, response: Option<bool>): Option<string> {
    SaveFile(content, CleanName(queueName), ids, response)
  }

  /**
   * With the lookup under the cleaned name, a save under any name without line breaks keeps one
   * block per name, and looking the cleaned name up afterwards yields the queue just saved.
   */
  lemma SaveFileFixedSerialized(blocks: seq<SavedQueue>, q: string, ids: seq<string>)
    requires AllValid(blocks) && DistinctNames(blocks) && NoLineBoundary(q) && ValidIds(ids)
    ensures SaveFileFixed(Serialize(blocks), q, ids, Some(true)) == Some(Serialize(SavedAfter(blocks, CleanName(q), ids)))
    ensures AllValid(SavedAfter(blocks, CleanName(q), ids)) && DistinctNames(SavedAfter(blocks, CleanName(q), ids))
    ensures GetSavedContents(Serialize(SavedAfter(blocks, CleanName(q), ids)), CleanName(q)) == Saved(CleanName(q), ids)
  {
    CleanNameValid(q);
    SaveFileSerialized(blocks, CleanName(q), ids);
  }

  lemma {:induction false} FirstNamedAppend(blocks: seq<SavedQueue>, nb: SavedQueue, q: string)
    requires forall i :: 0 <= i < |blocks| ==> !CaseEq(blocks[i].name, q)
    requires CaseEq(nb.name, q)
    ensures FirstNamed(blocks + [nb], q) == Some(|blocks|)
    decreases |blocks|
  {
    if |blocks| > 0 {
      assert (blocks + [nb])[1..] == blocks[1..] + [nb];
      FirstNamedAppend(blocks[1..], nb, q);
    }
  }

  lemma {:induction false} FirstNamedSame(blocks: seq<SavedQueue>, q: string, p: string)
    requires CaseEq(q, p)
    ensures FirstNamed(blocks, q) == FirstNamed(blocks, p)
    decreases |blocks|
  {
    if |blocks| > 0 {
      FirstNamedSame(blocks[1..], q, p);
    }
  }
}
