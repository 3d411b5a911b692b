# scribe_bot core in Dafny

scribe_bot is a Streamlit page that listens to a conversation, turns speech into
text, flags each utterance as High or Normal risk by keyword, keeps a transcript
and saves it to a text file. Around a large amount of UI and audio plumbing sits a
small logical core, which this project models and proves properties of:

- **Risk classifier** (`risk.dfy`, module `Risk`). `RISK_KEYWORDS` is the fixed,
  ordered keyword list. `DetectRiskLevel` lower-cases the text and tries the
  keywords in order, returning High on the first that is a substring and Normal
  otherwise. It is a method with a loop and an early return, proved equal to the
  function `Classify`. `Classify` rests on `FirstMatch`, the index of the first
  matching keyword. Substring tests are Python's `pat in text`
  (`Strings.Contains`: the pattern occurs at some index).
- **Conversation log** (`conversation.dfy`, module `Conversation`). An `Entry`
  holds a timestamp, a speaker, a text and a risk level. `NewEntry` builds an entry
  only from non-empty recognised text and classifies it. The class `Session` holds
  the session state: the log `conversations` (a `seq<Entry>` that is only ever
  extended), the `speakerCount` counter and the last recognised text. Its methods
  are `AddSpeaker` (the "Add New Speaker" button), `Append`, `Record` (one
  recognition result) and `ProcessFrames` (one batch of frames).
  `SpeakerOptions` is the `Person1 .. PersonN` picker list.
- **Exporter** (`exporter.dfy`, module `Exporter`). `Render` is the saved text of
  a log. Each entry becomes `"<timestamp> - <speaker>: <text>\n"` followed by
  `"Risk Level: <level>\n\n"`. `SaveConversation` writes the file contents with a
  loop, two writes per entry, and is proved equal to `Render`. It also returns the
  file name `conversation_<stamp>.txt`. A reader, `ParseExport`, shows that the
  saved text gives back the exact log, provided its fields are unambiguous.
- `strings.dfy` (module `Strings`) holds the text helpers: ASCII lower-casing,
  substrings, splitting at a separator, character counts and decimal numbers.
  `wrappers.dfy` holds `Option`.

The clock, the speaker picker and the speech recogniser are inputs. Timestamps
and the file-name stamp are strings passed in. The speaker is a string parameter.
A recognition result is a string, and the empty string stands for "nothing
recognised": that covers both an empty result and the exception that the
callback turns into `None`.

The model follows app.py as written:

- An entry's speaker is whatever the picker returns; there is no `"unassigned"`
  default.
- A failed recognition adds nothing and is not retried.
- There is no frame buffer, worker pool, pipeline state or escalation event. The
  queues declared in app.py are never used.
- Each entry is saved as two lines followed by a blank line.

## Model

| member | source | states |
|---|---|---|
| Risk.LevelName | app.py:34-35 | the classifier's answer is always one of the two strings "High" and "Normal" |
| Risk.FirstMatch | app.py:32-34 | the scan stops at the first keyword, in list order, that occurs in the text: that keyword matches and none before it does; it finds none exactly when no keyword occurs |
| Risk.Classify | app.py:30-35 | the level is High if and only if some keyword is a substring of the lower-cased text, and Normal otherwise |
| Risk.DetectRiskLevel | app.py:30-35 | the loop with early return gives exactly `Classify` on the fixed keyword list, so High if and only if a keyword occurs in the lower-cased text |
| Risk.KeywordsAreLowerCase | app.py:15-18 | each of the ten keywords in `RISK_KEYWORDS` (listed in the order of app.py) is lower case and unchanged by lower-casing |
| Strings.Lower | app.py:31 | the result has the text's length, holds no upper-case letter, and agrees with the text letter by letter up to case |
| Strings.ContainsIffFound | app.py:33 | the substring test `Contains` holds exactly when a first occurrence is found; the empty pattern is in every text |
| Strings.LowerIdempotent | app.py:31 | lower-cased text has no upper-case letter, and lower-casing it again changes nothing |
| Strings.LowerFixesLower | app.py:31 | text already in lower case is left as it is |
| Risk.ClassifyIgnoresCase | app.py:31 | classifying the lower-cased text gives the same level as classifying the original |
| Strings.LowerPreservesContains | app.py:31-33 | if a pattern occurs in a text, its lower-cased form occurs in the lower-cased text |
| Risk.AnyCasingOfKeywordIsHigh | app.py:31-34 | text that contains a keyword in any casing ("KILL", "End My Life") is High |
| Risk.ClassifyIgnoresKeywordOrder | app.py:32-34 | any permutation of the keyword list gives the same level for every text |
| Risk.EndMyLifeIsHigh | app.py:16 | "I want to end my life" is High whatever order the keywords are tried in |
| Risk.GreatDayIsNormal | app.py:30-35 | "I had a great day at school" contains no keyword and is Normal |
| Conversation.NewEntry | app.py:105-118 | an entry is built exactly when the recognised text is non-empty; it carries the given timestamp, speaker and text, and its level is the classifier's level for that text |
| Conversation.EntriesOf | app.py:105-120 | a result adds one entry when its text is non-empty and none otherwise; the entry carries the result's timestamp, speaker and text |
| Conversation.Logged | app.py:103-120 | a batch of results adds at most one entry per result, and every entry added has non-empty text and the classifier's level |
| Conversation.LoggedAppend | app.py:103-120 | handling one more result appends that result's entry, if any, after the earlier ones |
| Conversation.LoggedPrefixStep | app.py:103-120 | logging one more result of a batch appends its entry, if any, and the last logged text becomes that result's text when it was recognised |
| Conversation.HighEntriesMentionKeyword | app.py:111-117 | in a log built this way an entry is High if and only if its lower-cased text contains a keyword, and its text is never empty |
| Conversation.ThreeUtterancesLoggedInOrder | app.py:103-120 | three recognised texts A, B, C are logged as three entries with texts A, B, C and their speakers, in that order |
| Conversation.FailuresAddNothing | app.py:52-62 | two failed recognitions then "hello" log exactly one entry, with text "hello" |
| Strings.NatToDecimal | app.py:108 | the rendering of a number is a non-empty string of digits without a leading zero, one digit exactly for numbers below ten |
| Strings.DecimalRoundTrip | app.py:108 | the digits of a number read back as that number |
| Conversation.SpeakerOptions | app.py:108 | the picker offers `count` options; option i is longer than six characters, starts with "Person", and the rest is digits that read back as i+1 |
| Conversation.SpeakerOptionsDistinct | app.py:108 | no two picker options have the same name |
| Conversation.SpeakerOptionsGrow | app.py:87-88 | one more speaker adds exactly the option named after the new count, at the end |
| Conversation.Session.constructor | app.py:20-28 | a new session has an empty log, no speakers and no current text, and satisfies the log invariant |
| Conversation.Session.AddSpeaker | app.py:86-88 | the counter goes up by one; the announced name is "Person" and the new count, and it is the new last picker option |
| Conversation.Session.Append | app.py:120 | the log grows by exactly the given entry at the end; earlier entries are untouched; the invariant holds afterwards exactly when it held before and the entry is consistent |
| Conversation.Session.Record | app.py:58-120 | for non-empty text the entry `NewEntry` builds is appended and the text becomes the current text; for empty text nothing changes; the log invariant is kept |
| Conversation.Session.ProcessFrames | app.py:102-120 | after a batch the log is the old log followed by `Logged` of the batch; the current text is the last logged text, or the old one when nothing was logged |
| Exporter.HeaderLine | app.py:43 | the first line starts with the timestamp, ends with the text, and is five characters longer than the three fields together |
| Exporter.LevelLine | app.py:44 | the second line is "Risk Level: High" or "Risk Level: Normal", and the level reads back from what follows "Risk Level: " |
| Exporter.RenderEntry | app.py:43-44 | an entry's block starts with its header line and a line break, and ends with the level line and two line breaks |
| Exporter.Render | app.py:42-44 | the saved text is empty exactly for the empty log |
| Exporter.RenderAppend | app.py:42-44 | the saved text of a log extended by one entry is the old saved text followed by that entry's block |
| Exporter.ExportFileName | app.py:39 | the file name is "conversation_", then the stamp, then ".txt", and the stamp can be read back from it |
| Exporter.RenderPrefixStep | app.py:42-44 | the saved text of the first i+1 entries is that of the first i followed by entry i's block |
| Exporter.SaveConversation | app.py:37-45 | the contents written by the loop are exactly `Render` of the log, and the file name is `ExportFileName` of the stamp |
| Exporter.RenderNewlines | app.py:43-44 | when no field holds a line break, the saved text has exactly three line breaks per entry |
| Exporter.ParseRenderEntry | app.py:43-44 | one entry's block reads back as that entry, leaving the following text untouched |
| Exporter.ParseRender | app.py:42-44 | the saved text of a log of unambiguous entries reads back as exactly that log, in order |
| Exporter.ClockReadingDelimited | app.py:114 | a timestamp in the "%Y-%m-%d %H:%M:%S" format has no line break and no " -" |
| Exporter.RecordedEntryExportable | app.py:106-116 | an entry stamped by the clock, spoken by a picker option and with single-line text is unambiguous, so its export reads back |

## Left out

- Streamlit presentation: the title, the instructions, the sidebar, the buttons,
  the `st.error`/`st.success`/`st.info` messages, the "Contact Psychologist" and
  "Contact Parents" buttons and the history display (app.py:65-80,
  app.py:122-152). They only show or read the log. `Record` returns the new entry,
  so a caller can see its level.
- The "Save Conversation" button refuses an empty log (app.py:147-152). That is a
  UI guard. `SaveConversation` itself accepts any log and renders an empty one as
  the empty string.
- WebRTC streaming, `get_frames`, `process_audio`, the numpy and `av` conversions,
  and the unused `audio_queue`/`result_queue` and `threading` (app.py:6-12,
  app.py:47-50, app.py:91-102). These are foreign library calls and I/O.
  `ProcessFrames` takes the recognition results of a batch directly.
- `recognize_google` (app.py:53-62) is a network call. Its outcome is an input
  string, with the empty string for both "nothing recognised" and an exception.
- `datetime.now().strftime(...)` (app.py:38, app.py:114) is the clock. Timestamps
  and the file-name stamp are parameters.
- `open`/`write` (app.py:41-44) is file I/O. `SaveConversation` returns the
  contents the file would hold.
- `st.selectbox` (app.py:106-109) is a UI widget. The chosen speaker is a
  parameter. The widget returns `None` when no speaker exists; that is not modelled.
- `Strings.Lower`: lower-cases ASCII letters only. Python's `str.lower` also maps
  other Unicode letters, and a few of them to several characters.
- `st.session_state.risk_level` (app.py:25-26) is initialised but never read or
  updated, so `Session` has no such field.
- Conversation.Session.ProcessFrames: logs every recognised text of a batch, each
  with its own speaker. In app.py the speaker picker (app.py:106-109) is created
  again, with the same label and options, for each recognised text in one run of
  the script. Streamlit refuses a second identical widget in one run, and only
  `queue.Empty` is caught (app.py:130). So a batch with two or more recognised
  texts would log only the first of them, while the current text has already
  moved on. That rests on Streamlit's behaviour, which is not part of this model.
- Streamlit re-runs the script on every interaction. Each method models one pass
  of the relevant code. Concurrency between reruns is not modelled.
- The file name only holds the stamp passed in. That the stamp has the
  `%Y%m%d_%H%M%S` form is up to the clock, which is not modelled.
