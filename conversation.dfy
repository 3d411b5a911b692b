/**
 * The conversation log: transcript entries built from recognised speech,
 * the session state that holds them, and the list of speaker labels the
 * operator picks from.
 */
module Conversation {
  import opened Wrappers
  import opened Strings
  import opened Risk

  /** One transcript record. */
  datatype Entry = Entry(timestamp: string, speaker: string, text: string, riskLevel: RiskLevel)

  /** What every logged entry satisfies: its text is non-empty and its level is the classifier's. */
  predicate Consistent(e: Entry) {
    e.text != [] && e.riskLevel == Classify(RISK_KEYWORDS, e.text)
  }

  predicate LogInvariant(log: seq<Entry>) {
    forall i :: 0 <= i < |log| ==> Consistent(log[i])
  }

  /**
   * The entry built from one recognition result: none when nothing was
   * recognised (empty text), otherwise the text classified and stamped.
   */
  function NewEntry(timestamp: string, speaker: string, text: string): (r: Option<Entry>)
    ensures r.Some? <==> text != []
    ensures r.Some? ==> Consistent(r.value)
    ensures r.Some? ==> r.value.timestamp == timestamp && r.value.speaker == speaker && r.value.text == text
  {
    if text == [] then None else Some(Entry(timestamp, speaker, text, Classify(RISK_KEYWORDS, text)))
  }

  /** One recognition result together with the clock reading and the chosen speaker. */
  datatype Utterance = Utterance(timestamp: string, speaker: string, text: string)

  /** The entry one result adds to the log: one for recognised text, none otherwise. */
  function EntriesOf(u: Utterance): (r: seq<Entry>)
    ensures |r| == if u.text == [] then 0 else 1
    ensures r != [] ==> r[0].timestamp == u.timestamp && r[0].speaker == u.speaker && r[0].text == u.text
  {
    match NewEntry(u.timestamp, u.speaker, u.text)
    case Some(e) => [e]
    case None => []
  }

  /** The entries a batch of recognition results adds to the log, in order. */
  function Logged(us: seq<Utterance>): (r: seq<Entry>)
    ensures |r| <= |us|
    ensures LogInvariant(r)
  {
    if us == [] then [] else EntriesOf(us[0]) + Logged(us[1..])
  }

  lemma {:induction false} LoggedAppend(us: seq<Utterance>, u: Utterance)
    ensures Logged(us + [u]) == Logged(us) + EntriesOf(u)
  {
    if us == [] {
      assert us + [u] == [u] && [u][1..] == [];
    } else {
      var longer := us + [u];
      assert longer[0] == us[0] && longer[1..] == us[1..] + [u];
      LoggedAppend(us[1..], u);
      assert Logged(longer) == EntriesOf(us[0]) + Logged(us[1..] + [u]);
    }
  }

  /** The text of the last entry of `log`, or `fallback` when it is empty. */
  function LastText(log: seq<Entry>, fallback: string): string {
    if log == [] then fallback else log[|log| - 1].text
  }

  /**
   * Logging the first `i + 1` results adds result `i`'s entry, if any, after
   * the first `i`'s; the last logged text becomes result `i`'s when it was
   * recognised.
   */
  lemma LoggedPrefixStep(us: seq<Utterance>, i: nat, fallback: string)
    requires i < |us|
    ensures Logged(us[..i + 1]) == Logged(us[..i]) + EntriesOf(us[i])
    ensures LastText(Logged(us[..i + 1]), fallback)
         == if us[i].text == [] then LastText(Logged(us[..i]), fallback) else us[i].text
  {
    assert us[..i + 1] == us[..i] + [us[i]];
    LoggedAppend(us[..i], us[i]);
  }

  /** Every High entry's text holds a keyword (ignoring case); every Normal one holds none. */
  lemma HighEntriesMentionKeyword(log: seq<Entry>, i: nat)
    requires LogInvariant(log) && i < |log|
    ensures log[i].riskLevel == High <==> Mentions(RISK_KEYWORDS, Lower(log[i].text))
    ensures log[i].text != []
  {
  }

  /** Three recognised texts and no failed ones are logged as three entries, in order. */
  lemma ThreeUtterancesLoggedInOrder(a: Utterance, b: Utterance, c: Utterance)
    requires a.text != [] && b.text != [] && c.text != []
    ensures |Logged([a, b, c])| == 3
    ensures Logged([a, b, c])[0].text == a.text && Logged([a, b, c])[0].speaker == a.speaker
    ensures Logged([a, b, c])[1].text == b.text && Logged([a, b, c])[1].speaker == b.speaker
    ensures Logged([a, b, c])[2].text == c.text && Logged([a, b, c])[2].speaker == c.speaker
  {
    assert [a, b, c][1..] == [b, c];
    assert [b, c][1..] == [c];
    assert [c][1..] == [];
    assert Logged([c]) == EntriesOf(c);
    assert Logged([b, c]) == EntriesOf(b) + Logged([c]);
    assert Logged([a, b, c]) == EntriesOf(a) + Logged([b, c]);
  }

  /** Results with nothing recognised add nothing: two failures then "hello" log one entry. */
  lemma FailuresAddNothing(f1: Utterance, f2: Utterance, ok: Utterance)
    requires f1.text == [] && f2.text == [] && ok.text == "hello"
    ensures |Logged([f1, f2, ok])| == 1 && Logged([f1, f2, ok])[0].text == "hello"
  {
    assert [f1, f2, ok][1..] == [f2, ok];
    assert [f2, ok][1..] == [ok];
    assert [ok][1..] == [];
    assert Logged([ok]) == EntriesOf(ok);
    assert Logged([f2, ok]) == EntriesOf(f2) + Logged([ok]);
    assert Logged([f1, f2, ok]) == EntriesOf(f1) + Logged([f2, ok]);
  }

  /**
   * The options of the speaker picker: Person1 .. Person<count>. Option `i`
   * is "Person" followed by the decimal digits of `i + 1`.
   */
  function SpeakerOptions(count: nat): (r: seq<string>)
    ensures |r| == count
    ensures forall i :: 0 <= i < count ==>
      |r[i]| > 6 && r[i][..6] == "Person" && IsDigits(r[i][6..]) && DecimalValue(r[i][6..]) == i + 1
  {
    DecimalRoundTripAll();
    var r := seq(count, i requires 0 <= i < count => "Person" + NatToDecimal(i + 1));
    assert forall i :: 0 <= i < count ==> r[i][6..] == NatToDecimal(i + 1);
    r
  }

  /** Option `i` is "Person" followed by the decimal rendering of `i + 1`. */
  lemma SpeakerOptionShape(count: nat, i: nat)
    requires i < count
    ensures SpeakerOptions(count)[i] == "Person" + NatToDecimal(i + 1)
  {
  }

  /** No two speaker options carry the same label. */
  lemma SpeakerOptionsDistinct(count: nat, i: nat, j: nat)
    requires i < j < count
    ensures SpeakerOptions(count)[i] != SpeakerOptions(count)[j]
  {
    var a, b := NatToDecimal(i + 1), NatToDecimal(j + 1);
    if "Person" + a == "Person" + b {
      assert a == ("Person" + a)[6..];
      assert b == ("Person" + b)[6..];
      NatToDecimalInjective(i + 1, j + 1);
    }
  }

  /** Adding a speaker extends the options by exactly the new label. */
  lemma SpeakerOptionsGrow(count: nat)
    ensures SpeakerOptions(count + 1) == SpeakerOptions(count) + ["Person" + NatToDecimal(count + 1)]
  {
  }

  /** The per-session state: the conversation log, the speaker counter and the last text heard. */
  class Session {
    var conversations: seq<Entry>
    var speakerCount: nat
    var currentText: string

    ghost predicate Valid()
      reads this
    {
      LogInvariant(conversations)
    }

    /** A fresh session: empty log, no speakers, no text. */
    constructor ()
      ensures Valid()
      ensures conversations == [] && speakerCount == 0 && currentText == ""
    {
      conversations := [];
      speakerCount := 0;
      currentText := "";
    }

    /** The "Add New Speaker" button: one more speaker, announced by its name. */
    method AddSpeaker() returns (name: string)
      modifies this`speakerCount
      ensures speakerCount == old(speakerCount) + 1
      ensures name == "Person" + NatToDecimal(speakerCount)
      ensures SpeakerOptions(speakerCount) == SpeakerOptions(old(speakerCount)) + [name]
    {
      speakerCount := speakerCount + 1;
      name := "Person" + NatToDecimal(speakerCount);
      SpeakerOptionsGrow(speakerCount - 1);
    }

    /** Appends one entry at the end of the log; nothing earlier changes. */
    method Append(e: Entry)
      modifies this`conversations
      ensures conversations == old(conversations) + [e]
      ensures Valid() <==> old(Valid()) && Consistent(e)
    {
      conversations := conversations + [e];
      assert conversations[|conversations| - 1] == e;
      assert forall i :: 0 <= i < |old(conversations)| ==> conversations[i] == old(conversations)[i];
    }

    /**
     * Handles one recognition result: when text was recognised, remember it,
     * classify it and append the entry; otherwise change nothing.
     */
    method Record(timestamp: string, speaker: string, text: string) returns (entry: Option<Entry>)
      requires Valid()
      modifies this`conversations, this`currentText
      ensures Valid()
      ensures entry == NewEntry(timestamp, speaker, text)
      ensures conversations == old(conversations) + EntriesOf(Utterance(timestamp, speaker, text))
      ensures currentText == if text != [] then text else old(currentText)
    {
      if text == [] {
        return None;
      }
      currentText := text;
      var level := DetectRiskLevel(text);
      var e := Entry(timestamp, speaker, text, level);
      Append(e);
      entry := Some(e);
    }

    /** Handles the recognition results of one batch of audio frames, in order. */
    method ProcessFrames(utterances: seq<Utterance>)
      requires Valid()
      modifies this`conversations, this`currentText
      ensures Valid()
      ensures conversations == old(conversations) + Logged(utterances)
      ensures currentText == LastText(Logged(utterances), old(currentText))
    {
      for i := 0 to |utterances|
        invariant Valid()
        invariant conversations == old(conversations) + Logged(utterances[..i])
        invariant currentText == LastText(Logged(utterances[..i]), old(currentText))
      {
        var u := utterances[i];
        var _ := Record(u.timestamp, u.speaker, u.text);
        LoggedPrefixStep(utterances, i, old(currentText));
      }
      assert utterances[..|utterances|] == utterances;
    }
  }
}
