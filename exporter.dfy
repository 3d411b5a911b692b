/**
 * Saving a conversation: the text written for the log, entry by entry in
 * order, and the name of the file it goes to. A reader for that text shows
 * that nothing is lost in writing it.
 */
module Exporter {
  import opened Wrappers
  import opened Strings
  import opened Risk
  import opened Conversation

  // ---------------------------------------------------------------------
  // Rendering
  // ---------------------------------------------------------------------

  /**
   * First line of an entry: "<timestamp> - <speaker>: <text>". It starts with
   * the timestamp, ends with the text, and is five characters longer than
   * the three fields together.
   */
  function HeaderLine(e: Entry): (r: string)
    ensures |r| == |e.timestamp| + |e.speaker| + |e.text| + 5
    ensures r[..|e.timestamp|] == e.timestamp && r[|r| - |e.text|..] == e.text
  {
    e.timestamp + " - " + e.speaker + ": " + e.text
  }

  /** Second line of an entry: "Risk Level: <level>", from which the level reads back. */
  function LevelLine(e: Entry): (r: string)
    ensures r == "Risk Level: High" || r == "Risk Level: Normal"
    ensures "Risk Level: " <= r && ParseLevel(r[12..]) == Some(e.riskLevel)
  {
    "Risk Level: " + LevelName(e.riskLevel)
  }

  /**
   * Both lines of an entry, each ended by a newline, then a blank line: the
   * block starts with the header line and ends with two line breaks.
   */
  function RenderEntry(e: Entry): (r: string)
    ensures |r| == |HeaderLine(e)| + |LevelLine(e)| + 3 && r[|r| - 2..] == "\n\n"
    ensures HeaderLine(e) <= r && r[|HeaderLine(e)|] == '\n'
  {
    HeaderLine(e) + "\n" + LevelLine(e) + "\n\n"
  }

  /**
   * The saved text of a log: its entries' blocks in log order. It is empty
   * exactly for the empty log.
   */
  function Render(log: seq<Entry>): (r: string)
    ensures r == [] <==> log == []
  {
    if log == [] then "" else RenderEntry(log[0]) + Render(log[1..])
  }

  /** Rendering a log extended by one entry appends that entry's block. */
  lemma {:induction false} RenderAppend(log: seq<Entry>, e: Entry)
    ensures Render(log + [e]) == Render(log) + RenderEntry(e)
  {
    if log == [] {
      assert [e][1..] == [];
    } else {
      assert (log + [e])[1..] == log[1..] + [e];
      RenderAppend(log[1..], e);
    }
  }

  /** The saved text of the first `i + 1` entries extends that of the first `i` by entry `i`'s block. */
  lemma RenderPrefixStep(log: seq<Entry>, i: nat)
    requires i < |log|
    ensures Render(log[..i + 1]) == Render(log[..i]) + RenderEntry(log[i])
  {
    assert log[..i + 1] == log[..i] + [log[i]];
    RenderAppend(log[..i], log[i]);
  }

  /** The name of the saved file for clock reading `stamp`. */
  function ExportFileName(stamp: string): (r: string)
    ensures |r| == |stamp| + 17
    ensures r[..13] == "conversation_" && r[13..|r| - 4] == stamp && r[|r| - 4..] == ".txt"
  {
    "conversation_" + stamp + ".txt"
  }

  /**
   * Writes the log out block by block, two writes per entry, and names the
   * file after the clock reading `stamp`.
   */
  method SaveConversation(log: seq<Entry>, stamp: string) returns (filename: string, contents: string)
    ensures filename == ExportFileName(stamp)
    ensures contents == Render(log)
  {
    filename := ExportFileName(stamp);
    contents := "";
    for i := 0 to |log|
      invariant contents == Render(log[..i])
    {
      var e := log[i];
      ghost var before := contents;
      var header := e.timestamp + " - " + e.speaker + ": " + e.text + "\n";
      var level := "Risk Level: " + LevelName(e.riskLevel) + "\n\n";
      assert header + level == RenderEntry(e);
      contents := contents + header;
      contents := contents + level;
      assert contents == before + (header + level);
      RenderPrefixStep(log, i);
    }
    assert log[..|log|] == log;
  }

  // ---------------------------------------------------------------------
  // Line structure
  // ---------------------------------------------------------------------

  predicate SingleLine(s: string) {
    '\n' !in s
  }

  /** Entries whose fields hold no line break. */
  predicate FieldsSingleLine(e: Entry) {
    SingleLine(e.timestamp) && SingleLine(e.speaker) && SingleLine(e.text)
  }

  lemma BlockNewlines(header: string, level: string)
    requires SingleLine(header) && SingleLine(level)
    ensures CountChar(header + "\n" + level + "\n\n", '\n') == 3
  {
    CountCharAbsent(header, '\n');
    CountCharAbsent(level, '\n');
    assert CountChar("\n", '\n') == 1;
    assert CountChar("\n\n", '\n') == 2;
    CountCharConcat(header, "\n", '\n');
    CountCharConcat(header + "\n", level, '\n');
    CountCharConcat(header + "\n" + level, "\n\n", '\n');
  }

  lemma HeaderSingleLine(e: Entry)
    requires FieldsSingleLine(e)
    ensures SingleLine(HeaderLine(e))
  {
  }

  lemma LevelLineSingleLine(level: RiskLevel)
    ensures SingleLine("Risk Level: " + LevelName(level))
  {
  }

  lemma RenderEntryNewlines(e: Entry)
    requires FieldsSingleLine(e)
    ensures CountChar(RenderEntry(e), '\n') == 3
  {
    HeaderSingleLine(e);
    LevelLineSingleLine(e.riskLevel);
    BlockNewlines(HeaderLine(e), LevelLine(e));
  }

  /** With single-line fields, the saved text has exactly three line breaks per entry. */
  lemma {:induction false} RenderNewlines(log: seq<Entry>)
    requires forall i :: 0 <= i < |log| ==> FieldsSingleLine(log[i])
    ensures CountChar(Render(log), '\n') == 3 * |log|
  {
    if log != [] {
      RenderEntryNewlines(log[0]);
      RenderNewlines(log[1..]);
    }
  }

  // ---------------------------------------------------------------------
  // Reading the saved text back
  // ---------------------------------------------------------------------

  function ParseLevel(name: string): (r: Option<RiskLevel>)
    ensures r.Some? ==> LevelName(r.value) == name
  {
    if name == "High" then Some(High)
    else if name == "Normal" then Some(Normal)
    else None
  }

  /** Reads one entry's block from the front of `s`; also returns what follows it. */
  function ParseBlock(s: string): (r: Option<(Entry, string)>)
    ensures r.Some? ==> |r.value.1| < |s|
  {
    var lines :- SplitAt(s, "\n");
    var stamped :- SplitAt(lines.0, " - ");
    var spoken :- SplitAt(stamped.1, ": ");
    if !("Risk Level: " <= lines.1) then None
    else
      var levelLine :- SplitAt(lines.1[12..], "\n");
      var level :- ParseLevel(levelLine.0);
      if !("\n" <= levelLine.1) then None
      else Some((Entry(stamped.0, spoken.0, spoken.1, level), levelLine.1[1..]))
  }

  /** Reads a whole saved text back into the entries it was written from. */
  function ParseExport(s: string): Option<seq<Entry>>
    decreases |s|
  {
    if s == [] then Some([])
    else
      var block :- ParseBlock(s);
      var more :- ParseExport(block.1);
      Some([block.0] + more)
  }

  /**
   * Entries whose saved block reads back unambiguously: no line breaks in
   * the fields, no " -" in the timestamp and no ':' in the speaker.
   */
  predicate Exportable(e: Entry) {
    FieldsSingleLine(e) && !Contains(e.timestamp, " -") && ':' !in e.speaker
  }

  lemma SingleLineDelimited(s: string)
    requires SingleLine(s)
    ensures !Contains(s + "\n"[..0], "\n")
  {
    assert s + "\n"[..0] == s;
    AbsentCharExcludes(s, "\n", '\n');
  }

  lemma TimestampDelimited(ts: string)
    requires !Contains(ts, " -")
    ensures !Contains(ts + " - "[..2], " - ")
  {
    var s := ts + " -";
    assert " - "[..2] == " -";
    forall i: nat | i <= |s| ensures !OccursAt(s, " - ", i) {
      if i + 2 <= |ts| {
        assert !OccursAt(ts, " -", i);
        assert s[i..i + 2] == ts[i..i + 2];
        assert s[i..i + 3][..2] == s[i..i + 2];
      } else if i + 3 <= |s| {
        assert s[i + 1] == ' ';
        assert s[i..i + 3][1] == s[i + 1];
      }
    }
  }

  lemma SpeakerDelimited(speaker: string)
    requires ':' !in speaker
    ensures !Contains(speaker + ": "[..1], ": ")
  {
    var s := speaker + ":";
    assert ": "[..1] == ":";
    forall i: nat | i <= |s| ensures !OccursAt(s, ": ", i) {
      if i + 2 <= |s| {
        assert s[i] == speaker[i];
        assert s[i..i + 2][0] == s[i];
      }
    }
  }

  lemma LevelLineReadsBack(level: RiskLevel, rest: string)
    ensures SplitAt(LevelName(level) + "\n" + ("\n" + rest), "\n") == Some((LevelName(level), "\n" + rest))
  {
    assert SingleLine(LevelName(level));
    SingleLineDelimited(LevelName(level));
    SplitAtDelimited(LevelName(level), "\n", "\n" + rest);
  }

  lemma HeaderLineReadsBack(e: Entry, afterLine: string)
    requires FieldsSingleLine(e)
    ensures SplitAt(HeaderLine(e) + "\n" + afterLine, "\n") == Some((HeaderLine(e), afterLine))
  {
    HeaderSingleLine(e);
    SingleLineDelimited(HeaderLine(e));
    SplitAtDelimited(HeaderLine(e), "\n", afterLine);
  }

  lemma HeaderFieldsReadBack(e: Entry)
    requires Exportable(e)
    ensures SplitAt(HeaderLine(e), " - ") == Some((e.timestamp, e.speaker + ": " + e.text))
    ensures SplitAt(e.speaker + ": " + e.text, ": ") == Some((e.speaker, e.text))
  {
    var spoken := e.speaker + ": " + e.text;
    assert HeaderLine(e) == e.timestamp + " - " + spoken;
    TimestampDelimited(e.timestamp);
    SplitAtDelimited(e.timestamp, " - ", spoken);
    SpeakerDelimited(e.speaker);
    SplitAtDelimited(e.speaker, ": ", e.text);
  }

  lemma RenderEntryShape(e: Entry, rest: string)
    ensures RenderEntry(e) + rest == HeaderLine(e) + "\n" + (LevelLine(e) + "\n\n" + rest)
    ensures "Risk Level: " <= LevelLine(e) + "\n\n" + rest
    ensures (LevelLine(e) + "\n\n" + rest)[12..] == LevelName(e.riskLevel) + "\n" + ("\n" + rest)
    ensures ("\n" + rest)[1..] == rest
  {
    var afterLine := LevelLine(e) + "\n\n" + rest;
    assert afterLine == "Risk Level: " + (LevelName(e.riskLevel) + "\n" + ("\n" + rest));
  }

  /** One block reads back as its entry, leaving what follows untouched. */
  lemma ParseRenderEntry(e: Entry, rest: string)
    requires Exportable(e)
    ensures ParseBlock(RenderEntry(e) + rest) == Some((e, rest))
  {
    var afterLine := LevelLine(e) + "\n\n" + rest;
    RenderEntryShape(e, rest);
    HeaderLineReadsBack(e, afterLine);
    HeaderFieldsReadBack(e);
    LevelLineReadsBack(e.riskLevel, rest);
    assert ParseLevel(LevelName(e.riskLevel)) == Some(e.riskLevel);
  }

  /** The saved text of a log of exportable entries reads back as that log. */
  lemma {:induction false} ParseRender(log: seq<Entry>)
    requires forall i :: 0 <= i < |log| ==> Exportable(log[i])
    ensures ParseExport(Render(log)) == Some(log)
  {
    if log != [] {
      var rest := Render(log[1..]);
      assert Render(log) == RenderEntry(log[0]) + rest;
      ParseRenderEntry(log[0], rest);
      ParseRender(log[1..]);
      assert ParseExport(Render(log)) == Some([log[0]] + log[1..]);
      assert [log[0]] + log[1..] == log;
    }
  }

  // ---------------------------------------------------------------------
  // Entries the application produces
  // ---------------------------------------------------------------------

  /** A clock reading in the application's "%Y-%m-%d %H:%M:%S" format. */
  predicate IsClockReading(ts: string) {
    |ts| == 19 &&
    ts[4] == '-' && ts[7] == '-' && ts[10] == ' ' && ts[13] == ':' && ts[16] == ':' &&
    forall i :: 0 <= i < 19 && i !in {4, 7, 10, 13, 16} ==> IsDigit(ts[i])
  }

  /** A clock reading never holds " -": its only space is followed by a digit. */
  lemma ClockReadingDelimited(ts: string)
    requires IsClockReading(ts)
    ensures SingleLine(ts) && !Contains(ts, " -")
  {
    forall i: nat | i <= |ts| ensures !OccursAt(ts, " -", i) {
      if i + 2 <= |ts| {
        assert ts[i..i + 2][0] == ts[i] && ts[i..i + 2][1] == ts[i + 1];
      }
    }
  }

  /** Entries stamped by the clock, attributed to a listed speaker and single-line, read back. */
  lemma RecordedEntryExportable(e: Entry, count: nat)
    requires IsClockReading(e.timestamp)
    requires e.speaker in SpeakerOptions(count)
    requires SingleLine(e.text)
    ensures Exportable(e)
  {
    ClockReadingDelimited(e.timestamp);
    var i :| 0 <= i < count && SpeakerOptions(count)[i] == e.speaker;
    var digits := NatToDecimal(i + 1);
    SpeakerOptionShape(count, i);
    forall k | 0 <= k < |e.speaker| ensures e.speaker[k] != ':' && e.speaker[k] != '\n' {
      if k >= 6 {
        assert e.speaker[k] == digits[k - 6];
      }
    }
  }
}
