// Two commands of the basic cog: `%cleandm`, which deletes a bounded number of the bot's own
// messages from a DM, and `%updatenotes`, which formats the release notes line by line.

module Basic {
  import opened Wrappers
  import opened Text

  // ------------------------------------------------------------------ cleandm

  /** `max(min(num_messages, 100), 1)`: how many messages `%cleandm` may delete. */
  function CleanBudget(n: int): (r: int)
    ensures 1 <= r <= 100
    ensures 1 <= n <= 100 ==> r == n
  {
    if n > 100 then 100 else if n < 1 then 1 else n
  }

  /** A message of the DM history, newest first: whether the bot wrote it, and whether deleting it succeeds. */
  datatype HistoryMessage = HistoryMessage(byBot: bool, deletes: bool)

  /** The indices of the messages of `h` that the bot wrote and can delete, in history order. */
  function Deletable(h: seq<HistoryMessage>): (r: seq<nat>)
    ensures forall k :: 0 <= k < |r| ==> r[k] < |h| && h[r[k]].byBot && h[r[k]].deletes
    ensures forall k, l :: 0 <= k < l < |r| ==> r[k] < r[l]
    decreases |h|
  {
    if h == [] then []
    else
      var last := |h| - 1;
      Deletable(h[..last]) + (if h[last].byBot && h[last].deletes then [last] else [])
  }

  /** What is deletable in a prefix of the history is the start of what is deletable in all of it. */
  lemma {:induction false} DeletablePrefix(h: seq<HistoryMessage>, i: nat)
    requires i <= |h|
    ensures Deletable(h[..i]) <= Deletable(h)
    decreases |h| - i
  {
    if i < |h| {
      DeletablePrefix(h[..|h| - 1], i);
      assert h[..|h| - 1][..i] == h[..i];
    } else {
      assert h[..i] == h;
    }
  }

  /** Every bot message that can be deleted is listed. */
  lemma {:induction false} DeletableComplete(h: seq<HistoryMessage>, j: nat)
    requires j < |h| && h[j].byBot && h[j].deletes
    ensures j in Deletable(h)
    decreases |h|
  {
    if j < |h| - 1 {
      DeletableComplete(h[..|h| - 1], j);
    }
  }

  /** One more message of history adds its index exactly when the bot wrote it and can delete it. */
  lemma DeletableStep(h: seq<HistoryMessage>, i: nat)
    requires i < |h|
    ensures Deletable(h[..i + 1]) == Deletable(h[..i]) + (if h[i].byBot && h[i].deletes then [i] else [])
  {
    assert h[..i + 1][..i] == h[..i];
  }

  /** The first `k` of `s`, or all of it. */
  function Take(s: seq<nat>, k: nat): seq<nat> {
    if |s| <= k then s else s[..k]
  }

  /** A start of `s` that is `k` long, or all of `s` when shorter, is what `Take` gives. */
  lemma TakeOfPrefix(a: seq<nat>, s: seq<nat>, k: nat)
    requires a <= s && |a| <= k && (|a| == k || a == s)
    ensures Take(s, k) == a
  {
  }

  /** How many messages `channel.history()` yields by default: the newest hundred. */
  const HistoryLimit: nat := 100

  /** The messages `channel.history()` yields from a DM, newest first: at most the newest hundred. */
  function Newest(dm: seq<HistoryMessage>): (r: seq<HistoryMessage>)
    ensures |r| <= HistoryLimit && r <= dm
    ensures |dm| <= HistoryLimit ==> r == dm
  {
    if |dm| <= HistoryLimit then dm else dm[..HistoryLimit]
  }

  /**
   * `%cleandm [num_messages]`: walks the DM history (`dm`, the whole DM newest first, of which
   * `history()` yields the newest hundred), skipping messages the bot did not write, deleting the
   * bot's own, and stopping once the budget is spent. A delete that fails is skipped without
   * spending budget. Returns the count and the indices deleted.
   */
  method CleanDm(numMessages: int, dm: seq<HistoryMessage>) returns (numDeleted: nat, deleted: seq<nat>)
    ensures deleted == Take(Deletable(Newest(dm)), CleanBudget(numMessages))
    ensures numDeleted == |deleted| <= CleanBudget(numMessages)
  {
    var history := Newest(dm);
    var budget := CleanBudget(numMessages);
    numDeleted := 0;
    deleted := [];
    var i := 0;
    while i < |history|
      invariant 0 <= i <= |history|
      invariant deleted == Deletable(history[..i])
      invariant numDeleted == |deleted| && budget == CleanBudget(numMessages) - numDeleted && budget >= 0
    {
      if budget == 0 {
        break;
      }
      DeletableStep(history, i);
      if !history[i].byBot {
        i := i + 1;
        continue;
      }
      if history[i].deletes {
        budget := budget - 1;
        numDeleted := numDeleted + 1;
        deleted := deleted + [i];
      }
      i := i + 1;
    }
    DeletablePrefix(history, i);
    if i == |history| {
      assert history[..i] == history;
    }
    TakeOfPrefix(deleted, Deletable(history), CleanBudget(numMessages));
  }

  /**
   * Deleting stops at the budget or at the end of what the bot can delete among the newest
   * hundred messages, whichever comes first; within the budget every such message goes, and no
   * older message is ever touched.
   */
  lemma CleanDmCount(numMessages: int, dm: seq<HistoryMessage>)
    ensures var d := Deletable(Newest(dm));
      var n := |Take(d, CleanBudget(numMessages))|;
      n == if |d| < CleanBudget(numMessages) then |d| else CleanBudget(numMessages)
    ensures forall j :: (0 <= j < |dm| && j < HistoryLimit && dm[j].byBot && dm[j].deletes &&
      |Deletable(Newest(dm))| <= CleanBudget(numMessages)) ==> j in Take(Deletable(Newest(dm)), CleanBudget(numMessages))
    ensures forall k :: k in Take(Deletable(Newest(dm)), CleanBudget(numMessages)) ==>
      k < HistoryLimit && k < |dm| && dm[k].byBot && dm[k].deletes
  {
    var h := Newest(dm);
    forall j | 0 <= j < |dm| && j < HistoryLimit && dm[j].byBot && dm[j].deletes
      ensures j in Deletable(h)
    {
      assert h[j] == dm[j];
      DeletableComplete(h, j);
    }
    forall k | k in Take(Deletable(h), CleanBudget(numMessages))
      ensures k < HistoryLimit && k < |dm| && dm[k].byBot && dm[k].deletes
    {
      assert k in Deletable(h);
      var t :| 0 <= t < |Deletable(h)| && Deletable(h)[t] == k;
      assert h[k] == dm[k];
    }
  }

  // ------------------------------------------------------------------ updatenotes

  /** The arrow that marks an indented note line. */
  const Arrow: string := "\t\U{2BA9} "

  /** The bullet that marks a note line. */
  const Bullet: string := "\U{2022} "

  /**
   * One line of the notes as `%updatenotes` shows it: blank lines become empty, version headers
   * (`[`) stay, a tab-indented line gets an arrow in place of its tab, and any other a bullet.
   */
  function FormatLine(line: string): (r: string)
    ensures line == "" || IsSpace(line) ==> r == ""
    ensures line != "" && !IsSpace(line) && line[0] == '[' ==> r == line
    ensures line != "" && !IsSpace(line) && line[0] == '\t' ==> r == Arrow + line[1..]
    ensures line != "" && !IsSpace(line) && line[0] != '[' && line[0] != '\t' ==> r == Bullet + line
  {
    if line == "" || IsSpace(line) then ""
    else if line[0] == '[' then line
    else if line[0] == '\t' then Arrow + line[1..]
    else Bullet + line
  }

  /** The note line a formatted line came from, for any line that is not blank. */
  function UnformatLine(f: string): string {
    if |f| >= |Arrow| && f[..|Arrow|] == Arrow then "\t" + f[|Arrow|..]
    else if |f| >= |Bullet| && f[..|Bullet|] == Bullet then f[|Bullet|..]
    else f
  }

  /** Formatting loses nothing but blank lines: a non-blank line is recovered from what is shown. */
  lemma FormatLineRoundTrip(line: string)
    requires line != "" && !IsSpace(line)
    ensures UnformatLine(FormatLine(line)) == line
    ensures (FormatLine(line) == line) <==> line[0] == '['
  {
    var f := FormatLine(line);
    if line[0] == '[' {
      assert f[0] == '[';
    } else if line[0] == '\t' {
      assert f[..|Arrow|] == Arrow && f[|Arrow|..] == line[1..];
      assert "\t" + line[1..] == line;
      assert |f| == |line| + 2;
    } else {
      assert f[..|Bullet|] == Bullet && f[|Bullet|..] == line;
      assert |f| == |line| + 2;
    }
  }

  /**
   * The formatting loop of `%updatenotes` over the lines of the notes (already cut from the
   * release notes and split into lines): one formatted line per note line, in order.
   */
  method FormatNotes(lines: seq<string>) returns (out: seq<string>)
    ensures |out| == |lines|
    ensures forall i :: 0 <= i < |lines| ==> out[i] == FormatLine(lines[i])
  {
    out := [];
    for i := 0 to |lines|
      invariant |out| == i
      invariant forall k :: 0 <= k < i ==> out[k] == FormatLine(lines[k])
    {
      out := out + [FormatLine(lines[i])];
    }
  }

  /**
   * `%updatenotes`: `notes` is the text from this version's header to the end of the release
   * notes, `None` when the header is missing. The reply is the notes with trailing newlines
   * stripped, split into lines, formatted, joined by newlines and put in a code block.
   */
  method UpdateNotes(version: string, notes: Option<string>) returns (outstr: string)
    ensures notes.None? ==> outstr == "No update notes found for **" + version + "**!"
    ensures notes.Some? ==> exists out: seq<string> :: (outstr == "```" + Join(out, "\n") + "```" &&
      |out| == |SplitLines(StripNewlines(notes.value))| &&
      forall i :: 0 <= i < |out| ==> out[i] == FormatLine(SplitLines(StripNewlines(notes.value))[i]))
  {
    if notes.None? {
      return "No update notes found for **" + version + "**!";
    }
    var content := StripNewlines(notes.value);
    var lines := FormatNotes(SplitLines(content));
    outstr := "```" + Join(lines, "\n") + "```";
  }

  /** `s.rstrip("\n")`. */
  function StripNewlines(s: string): (r: string)
    ensures r <= s && (r == [] || r[|r| - 1] != '\n')
    ensures forall k :: |r| <= k < |s| ==> s[k] == '\n'
    decreases |s|
  {
    if |s| > 0 && s[|s| - 1] == '\n' then StripNewlines(s[..|s| - 1]) else s
  }

  /** A formatted line never holds a newline when the note line does not, so the message shows exactly one line per note line. */
  lemma {:induction false} FormatNotesLines(lines: seq<string>, out: seq<string>)
    requires |lines| >= 1 && |out| == |lines|
    requires forall i :: 0 <= i < |lines| ==> '\n' !in lines[i] && out[i] == FormatLine(lines[i])
    ensures SplitOn(Join(out, "\n"), '\n') == out
  {
    forall i | 0 <= i < |out|
      ensures '\n' !in out[i]
    {
      var line := lines[i];
      if !(line == "" || IsSpace(line)) && line[0] != '[' && line[0] == '\t' {
        assert out[i] == Arrow + line[1..];
        assert forall k :: 1 <= k < |line| ==> line[k] != '\n';
      }
    }
    SplitJoinRoundTrip(out, '\n');
  }
}
