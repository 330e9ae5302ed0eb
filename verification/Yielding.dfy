/** What the guard's line in a job's log comes to when the job's verdict is read. */
module Yielding {
  import opened Wrappers
  import opened Sequences
  import opened Decimal
  import opened LogView
  import opened Gitlab
  import opened Guard

  lemma {:induction false} FirstYield(before: seq<string>, line: string, after: seq<string>)
    requires YieldLine(before).None? && YIELD_MARK <= Untimed(line)
    ensures YieldLine(before + ([line] + after)) == Some(Untimed(line))
  {
    if before == [] {
      assert before + ([line] + after) == [line] + after;
    } else {
      assert (before + ([line] + after))[1..] == before[1..] + ([line] + after);
      FirstYield(before[1..], line, after);
    }
  }

  /** Around the log's first line with the mark, nothing matters. */
  lemma FirstMarked(before: string, line: string, after: string)
    requires AtLineStart(before) && YieldLine(LinesOf(before)).None?
    requires YIELD_MARK <= Untimed(line) && '\n' !in line && WithoutReturn(line) == line
    ensures YieldLine(LinesOf(before + (line + "\n") + after)) == Some(Untimed(line))
  {
    var ended := line + "\n";
    OneLine(line);
    LinesJoin(before + ended, after);
    LinesJoin(before, ended);
    FirstYield(LinesOf(before), line, LinesOf(after));
    Assoc(LinesOf(before), [line], LinesOf(after));
  }

  lemma ReasonStart(others: nat, tag: string)
    ensures var reason := Reason(others, tag); |reason| > 2 && IsDigit(reason[0]) && reason[2] != 'Z'
  {
    var digits := Pad(others, 1);
    assert digits[0] in digits;
    if |digits| > 2 {
      assert digits[2] in digits;
    }
  }

  /** The guard's line bears no stamp, and its reason is read back. */
  lemma MarkLine(reason: string, line: string)
    requires line == (YIELD_MARK + ": ") + reason && |reason| > 2 && reason[2] != 'Z'
    ensures YIELD_MARK <= line && Untimed(line) == line && line[|YIELD_MARK|..] == ": " + reason
  {
    assert |YIELD_MARK| == 22 && |YIELD_MARK + ": "| == 24;
    assert line[26] == reason[2];
  }

  lemma Trimmed(reason: string)
    requires reason != [] && IsDigit(reason[0]) && !IsSpace(reason[|reason| - 1])
    ensures TrimEnd(TrimStart(TrimStart(": " + reason, true), false)) == reason
  {
    assert (": " + reason)[1..] == " " + reason;
    assert TrimStart(" " + reason, true) == " " + reason;
    assert (" " + reason)[1..] == reason;
  }

  lemma StampedLine(stamp: string, line: string)
    requires (stamp == [] || IsStamp(stamp)) && '\n' !in stamp
    requires Untimed(line) == line && line != [] && WithoutReturn(line) == line && '\n' !in line
    ensures Untimed(stamp + line) == line && WithoutReturn(stamp + line) == stamp + line && '\n' !in stamp + line
  {
    StampOff(stamp, line);
    assert (stamp + line)[|stamp + line| - 1] == line[|line| - 1];
  }

  lemma ReasonYielded(before: string, stamp: string, others: nat, tag: string, after: string, failure: Option<string>)
    requires AtLineStart(before) && YieldLine(LinesOf(before)).None?
    requires (stamp == [] || IsStamp(stamp)) && '\n' !in stamp
    requires tag != [] && !IsSpace(tag[|tag| - 1]) && '\n' !in tag
    ensures VerdictOf(Job("failed", failure), before + (stamp + GivesBack(others, tag)) + after)
         == Some(Yielded(Reason(others, tag)))
  {
    var reason := Reason(others, tag);
    var line := YIELD_MARK + ": " + reason;
    ReasonStart(others, tag);
    ReasonEnds(others, tag);
    MarkLine(reason, line);
    Trimmed(reason);
    StampedLine(stamp, line);
    FirstMarked(before, stamp + line, after);
    Assoc(stamp, line, "\n");
    VerdictFromLine(Job("failed", failure), before + (stamp + GivesBack(others, tag)) + after, line);
  }

  /** The line, word by word. */
  lemma GivesBackSays(others: nat, tag: string)
    ensures Reason(others, tag) == Pad(others, 1) + " job(s) of another project want " + tag
    ensures GivesBack(others, tag) == "slopty-gitlab: yielded: " + Reason(others, tag) + "\n"
  {
  }

  /**
   A Mac given back is told from a failed check: once the guard's line is in a
   failed job's log, stamped or not, and none like it before, its reason is the
   verdict, whatever else the log holds.
   */
  lemma GivenBackIsYielded(before: string, stamp: string, others: nat, tag: string, after: string, failure: Option<string>)
    requires AtLineStart(before) && YieldLine(LinesOf(before)).None?
    requires (stamp == [] || IsStamp(stamp)) && '\n' !in stamp
    requires tag != [] && !IsSpace(tag[|tag| - 1]) && '\n' !in tag
    ensures GivesBack(others, tag)
         == "slopty-gitlab: yielded: " + (Pad(others, 1) + " job(s) of another project want " + tag) + "\n"
    ensures VerdictOf(Job("failed", failure), before + (stamp + GivesBack(others, tag)) + after)
         == Some(Yielded(Pad(others, 1) + " job(s) of another project want " + tag))
  {
    GivesBackSays(others, tag);
    ReasonYielded(before, stamp, others, tag, after, failure);
  }

  lemma ReasonEnds(others: nat, tag: string)
    requires tag != [] && !IsSpace(tag[|tag| - 1]) && '\n' !in tag
    ensures var reason := Reason(others, tag);
      var line := YIELD_MARK + ": " + reason;
      && !IsSpace(reason[|reason| - 1]) && '\n' !in line && WithoutReturn(line) == line
  {
    var reason := Reason(others, tag);
    assert reason[|reason| - 1] == tag[|tag| - 1];
  }
}
