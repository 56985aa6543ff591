/** What the command line splits, said with the quoted text in it (datafusion-cli/src/helper.rs). */
module CommandQuotes {
  import opened Text
  import opened CommandSplitter

  /** Text without quotes and semicolons, or any text between two quotes of a kind. */
  datatype Segment = Bare(text: string) | Quoted(mark: char, text: string)

  predicate IsMark(mark: char) {
    mark == '\'' || mark == '"'
  }

  predicate Proper(s: Segment) {
    match s
    case Bare(text) => Free(text, {';', '\'', '"'})
    case Quoted(mark, text) => IsMark(mark) && Free(text, {mark})
  }

  ghost predicate AllProper(segments: seq<Segment>) {
    forall s <- segments :: Proper(s)
  }

  function SegmentText(s: Segment): string {
    match s
    case Bare(text) => text
    case Quoted(mark, text) => [mark] + text + [mark]
  }

  function CommandText(segments: seq<Segment>): string {
    if segments == [] then "" else SegmentText(segments[0]) + CommandText(segments[1..])
  }

  /** Commands, each with a semicolon behind it. */
  function Line(commands: seq<seq<Segment>>): string {
    if commands == [] then "" else CommandText(commands[0]) + ";" + Line(commands[1..])
  }

  /** A command as it is run, if it is not blank. */
  function Trimmed1(text: string): seq<string> {
    if Blank(text) then [] else [Trim(text, SPACE) + ";"]
  }

  function TrimmedAll(commands: seq<seq<Segment>>): seq<string> {
    if commands == [] then [] else Trimmed1(CommandText(commands[0])) + TrimmedAll(commands[1..])
  }

  lemma {:induction false} BareKeeps(text: string)
    requires Free(text, {';', '\'', '"'})
    ensures End(text, Outside) == Outside && Unsplit(text, Outside)
  {
    if text == "" {
    } else {
      assert text[0] !in {';', '\'', '"'};
      BareKeeps(text[1..]);
    }
  }

  function Inside(mark: char): Quote {
    if mark == '"' then Double else Single
  }

  /** Nothing between quotes of a kind ends them, and no semicolon there splits. */
  lemma {:induction false} QuotedKeeps(mark: char, text: string)
    requires IsMark(mark) && Free(text, {mark})
    ensures End(text, Inside(mark)) == Inside(mark) && Unsplit(text, Inside(mark))
  {
    if text == "" {
    } else {
      assert text[0] !in {mark};
      QuotedKeeps(mark, text[1..]);
    }
  }

  lemma MarkTurns(mark: char)
    requires IsMark(mark)
    ensures End([mark], Outside) == Inside(mark) && Unsplit([mark], Outside)
    ensures End([mark], Inside(mark)) == Outside && Unsplit([mark], Inside(mark))
  {
    assert [mark][1..] == "";
  }

  lemma SegmentIsWhole(s: Segment)
    requires Proper(s)
    ensures End(SegmentText(s), Outside) == Outside && Unsplit(SegmentText(s), Outside)
  {
    hide End, Unsplit;
    match s
    case Bare(text) => BareKeeps(text);
    case Quoted(mark, text) =>
      OpenIsUnsplit(mark, text);
      MarkTurns(mark);
      EndAppend([mark] + text, [mark], Outside);
      UnsplitAppend([mark] + text, [mark], Outside);
  }

  lemma OpenIsUnsplit(mark: char, text: string)
    requires IsMark(mark) && Free(text, {mark})
    ensures End([mark] + text, Outside) == Inside(mark) && Unsplit([mark] + text, Outside)
  {
    hide End, Unsplit;
    QuotedKeeps(mark, text);
    MarkTurns(mark);
    EndAppend([mark], text, Outside);
    UnsplitAppend([mark], text, Outside);
  }

  lemma {:induction false} CommandIsUnsplit(segments: seq<Segment>)
    requires AllProper(segments)
    ensures End(CommandText(segments), Outside) == Outside && Unsplit(CommandText(segments), Outside)
  {
    hide End, Unsplit, Proper, SegmentText;
    if segments == [] {
      NothingIsUnsplit();
    } else {
      var first, rest := SegmentText(segments[0]), CommandText(segments[1..]);
      assert segments[0] in segments;
      SegmentIsWhole(segments[0]);
      CommandIsUnsplit(segments[1..]);
      EndAppend(first, rest, Outside);
      UnsplitAppend(first, rest, Outside);
    }
  }

  lemma NothingIsUnsplit()
    ensures End("", Outside) == Outside && Unsplit("", Outside)
  {
  }

  /** Behind commands the rest of the input is split on its own. */
  lemma {:induction false} LineSplits(commands: seq<seq<Segment>>, rest: string)
    requires forall c <- commands :: AllProper(c)
    ensures Split(Line(commands) + rest) == TrimmedAll(commands) + Split(rest)
    decreases |commands|
  {
    hide Split, AllProper, CommandText, Unsplit, End, Trimmed1;
    if commands == [] {
      assert "" + rest == rest;
    } else {
      var text, more := CommandText(commands[0]), commands[1..];
      assert commands[0] in commands;
      CommandIsUnsplit(commands[0]);
      LineSplits(more, rest);
      SplitAppend(text, Line(more) + rest);
      OneTrimmed(text);
      Regroup(text + ";", Line(more), rest);
      Regroup(Trimmed1(text), TrimmedAll(more), Split(rest));
    }
  }

  lemma OneTrimmed(text: string)
    requires Unsplit(text, Outside)
    ensures Split(text) == Trimmed1(text)
  {
    hide Split, Unsplit;
    UnsplitSplit(text);
  }

  /** The input is split at the semicolons behind its commands and nowhere else: none between two quotes
      of a kind splits, and none behind a quote that nothing closes. */
  lemma QuotesHideSemicolons(commands: seq<seq<Segment>>, last: seq<Segment>, mark: char, open: string)
    requires forall c <- commands :: AllProper(c)
    requires AllProper(last) && IsMark(mark) && Free(open, {mark})
    ensures Split(Line(commands) + CommandText(last)) == TrimmedAll(commands) + Trimmed1(CommandText(last))
    ensures var end := CommandText(last) + ([mark] + open);
            Split(Line(commands) + end) == TrimmedAll(commands) + Trimmed1(end)
  {
    hide Split, AllProper, CommandText, Unsplit, End, Trimmed1, Line, TrimmedAll;
    var text := CommandText(last);
    CommandIsUnsplit(last);
    OpenIsUnsplit(mark, open);
    UnsplitAppend(text, [mark] + open, Outside);
    OneTrimmed(text);
    OneTrimmed(text + ([mark] + open));
    LineSplits(commands, text);
    LineSplits(commands, text + ([mark] + open));
  }
}
