/**
 * The CSV text the database script writes from the filtered stories
 * (src/scripts/populate-news-database.ts, lines 17-21): a header row, then
 * one row per story, every field quoted with embedded quotes doubled as in
 * section 2 (rules 6 and 7) of RFC 4180, rows joined with "\n". A reader for
 * that format is given so that what is written can be shown to read back.
 */
module NewsCsv {
  import opened Wrappers
  import StoryFilter

  /** The header row, `"title","content"`. */
  const Header: string := Quoted("title") + "," + Quoted("content")
  const NoSummary: string := "No summary available"

  /** `replace(/"/g, '""')`: every double quote doubled. */
  function Escape(s: string): (r: string)
    ensures |r| >= |s|
  {
    if s == [] then []
    else (if s[0] == '"' then "\"\"" else [s[0]]) + Escape(s[1..])
  }

  /** Undoes the doubling: a pair of quotes reads as one quote. */
  function Unescape(s: string): string
  {
    if s == [] then []
    else if |s| >= 2 && s[0] == '"' && s[1] == '"' then "\"" + Unescape(s[2..])
    else [s[0]] + Unescape(s[1..])
  }

  lemma {:induction false} UnescapeEscape(s: string)
    ensures Unescape(Escape(s)) == s
  {
    if s != [] {
      UnescapeEscape(s[1..]);
      assert Escape(s) == (if s[0] == '"' then "\"\"" else [s[0]]) + Escape(s[1..]);
      assert s == [s[0]] + s[1..];
    }
  }

  /** `story.summary || 'No summary available'`. */
  function SummaryOrDefault(summary: string): (r: string)
    ensures r != ""
    ensures summary != "" ==> r == summary
  {
    if summary == "" then NoSummary else summary
  }

  /** What the script takes from a story: its title and its summary. */
  datatype Entry = Entry(title: string, summary: string)

  function Entries(stories: seq<StoryFilter.ScoredStory>): (es: seq<Entry>)
    ensures |es| == |stories|
    ensures forall i :: 0 <= i < |stories| ==> es[i] == Entry(stories[i].story.title, stories[i].story.summary)
  {
    if stories == [] then [] else [Entry(stories[0].story.title, stories[0].story.summary)] + Entries(stories[1..])
  }

  /** A field in double quotes, embedded quotes doubled. */
  function Quoted(s: string): (q: string)
    ensures |q| >= 2 && q[0] == '"' && q[|q| - 1] == '"'
  {
    "\"" + Escape(s) + "\""
  }

  /** One CSV row: the title and the summary (or the default), each quoted, separated by a comma. */
  function Row(e: Entry): string
  {
    Quoted(e.title) + "," + Quoted(SummaryOrDefault(e.summary))
  }

  function Rows(entries: seq<Entry>): seq<string>
  {
    if entries == [] then [] else [Row(entries[0])] + Rows(entries[1..])
  }

  /** `lines.join('\n')`. */
  function JoinLines(lines: seq<string>): string
  {
    if lines == [] then ""
    else if |lines| == 1 then lines[0]
    else lines[0] + "\n" + JoinLines(lines[1..])
  }

  /** The file content: the header row first, then one row per story in order. */
  function CsvContent(stories: seq<StoryFilter.ScoredStory>): string
  {
    JoinLines([Header] + Rows(Entries(stories)))
  }

  /** One record of two fields, as the reader sees it. */
  datatype Record = Record(first: string, second: string)

  /** The record a row stands for: the title and the summary, or the default for an empty one. */
  function Expected(e: Entry): Record
  {
    Record(e.title, SummaryOrDefault(e.summary))
  }

  function ExpectedRecords(entries: seq<Entry>): (rs: seq<Record>)
    ensures |rs| == |entries|
    ensures forall i :: 0 <= i < |entries| ==> rs[i] == Expected(entries[i])
  {
    if entries == [] then [] else [Expected(entries[0])] + ExpectedRecords(entries[1..])
  }

  /**
   * The inside of a quoted field, after the opening quote: characters up to a lone quote,
   * a doubled quote standing for one. Returns the field's text and what follows the closing quote.
   */
  function ReadQuotedBody(s: string): (r: Option<(string, string)>)
    ensures r.Some? ==> |r.value.1| < |s|
  {
    if s == [] then None
    else if s[0] == '"' then
      if |s| >= 2 && s[1] == '"' then
        match ReadQuotedBody(s[2..])
        case None => None
        case Some((text, rest)) => Some(("\"" + text, rest))
      else Some(("", s[1..]))
    else
      match ReadQuotedBody(s[1..])
      case None => None
      case Some((text, rest)) => Some(([s[0]] + text, rest))
  }

  /** A quoted field. */
  function ReadField(s: string): (r: Option<(string, string)>)
    ensures r.Some? ==> |r.value.1| < |s|
  {
    if s != [] && s[0] == '"' then ReadQuotedBody(s[1..]) else None
  }

  /** Two quoted fields separated by a comma. */
  function ReadRecord(s: string): (r: Option<(Record, string)>)
    ensures r.Some? ==> |r.value.1| < |s|
  {
    match ReadField(s)
    case None => None
    case Some((first, rest)) =>
      if rest != [] && rest[0] == ',' then
        match ReadField(rest[1..])
        case None => None
        case Some((second, rest')) => Some((Record(first, second), rest'))
      else None
  }

  /** Records separated by "\n" up to the end of the text. */
  function ReadFile(s: string): Option<seq<Record>>
    decreases |s|
  {
    match ReadRecord(s)
    case None => None
    case Some((record, rest)) =>
      if rest == [] then Some([record])
      else if rest[0] == '\n' then
        match ReadFile(rest[1..])
        case None => None
        case Some(records) => Some([record] + records)
      else None
  }

  /** A doubled quote inside a quoted field reads as one quote. */
  lemma ReadDoubledQuote(tail: string, text: string, rest: string)
    requires ReadQuotedBody(tail) == Some((text, rest))
    ensures ReadQuotedBody("\"\"" + tail) == Some(("\"" + text, rest))
  {
    assert ("\"\"" + tail)[2..] == tail;
  }

  /** Any other character inside a quoted field reads as itself. */
  lemma ReadPlainChar(c: char, tail: string, text: string, rest: string)
    requires c != '"'
    requires ReadQuotedBody(tail) == Some((text, rest))
    ensures ReadQuotedBody([c] + tail) == Some(([c] + text, rest))
  {
    assert ([c] + tail)[1..] == tail;
  }

  /** The escaped text followed by a closing quote reads back as the original text. */
  lemma {:induction false} ReadEscaped(text: string, rest: string)
    requires rest == [] || rest[0] != '"'
    ensures ReadQuotedBody(Escape(text) + "\"" + rest) == Some((text, rest))
  {
    if text == [] {
      assert Escape(text) + "\"" + rest == "\"" + rest;
    } else {
      ReadEscaped(text[1..], rest);
      var tail := Escape(text[1..]) + "\"" + rest;
      var head := if text[0] == '"' then "\"\"" else [text[0]];
      assert Escape(text) == head + Escape(text[1..]);
      assert Escape(text) + "\"" + rest == head + tail;
      if text[0] == '"' {
        ReadDoubledQuote(tail, text[1..], rest);
        assert "\"" + text[1..] == text;
      } else {
        ReadPlainChar(text[0], tail, text[1..], rest);
        assert [text[0]] + text[1..] == text;
      }
    }
  }

  /** A quoted field reads back as its text, whatever characters it holds. */
  lemma ReadQuoted(text: string, rest: string)
    requires rest == [] || rest[0] != '"'
    ensures ReadField(Quoted(text) + rest) == Some((text, rest))
  {
    ReadEscaped(text, rest);
    assert (Quoted(text) + rest)[1..] == Escape(text) + "\"" + rest;
  }

  /** A row reads back as its title and summary. */
  lemma ReadRow(title: string, summary: string, rest: string)
    requires rest == [] || rest[0] == '\n'
    ensures ReadRecord(Quoted(title) + "," + Quoted(summary) + rest) == Some((Record(title, summary), rest))
  {
    var afterFirst := "," + (Quoted(summary) + rest);
    assert Quoted(title) + "," + Quoted(summary) + rest == Quoted(title) + afterFirst;
    ReadQuoted(title, afterFirst);
    assert afterFirst[1..] == Quoted(summary) + rest;
    ReadQuoted(summary, rest);
  }

  /** A record, a line break, and a readable rest read as that record followed by the rest's records. */
  lemma ReadFileStep(head: string, headRecord: Record, tail: string)
    requires ReadRecord(head + ("\n" + tail)) == Some((headRecord, "\n" + tail))
    requires ReadFile(tail).Some?
    ensures ReadFile(head + ("\n" + tail)) == Some([headRecord] + ReadFile(tail).value)
  {
    assert ("\n" + tail)[1..] == tail;
  }

  lemma ReadFileLast(head: string, headRecord: Record)
    requires ReadRecord(head) == Some((headRecord, []))
    ensures ReadFile(head) == Some([headRecord])
  {
  }

  lemma JoinCons(head: string, lines: seq<string>)
    requires lines != []
    ensures JoinLines([head] + lines) == head + ("\n" + JoinLines(lines))
  {
    assert ([head] + lines)[1..] == lines;
  }

  lemma RowsCons(entries: seq<Entry>)
    requires entries != []
    ensures Rows(entries) == [Row(entries[0])] + Rows(entries[1..])
    ensures ExpectedRecords(entries) == [Expected(entries[0])] + ExpectedRecords(entries[1..])
  {
  }

  /** A line of two quoted fields, then the story rows: the reader recovers the fields and each story's record. */
  lemma {:induction false} ReadLines(first: string, second: string, entries: seq<Entry>)
    ensures ReadFile(JoinLines([Quoted(first) + "," + Quoted(second)] + Rows(entries)))
            == Some([Record(first, second)] + ExpectedRecords(entries))
    decreases |entries|
  {
    var head := Quoted(first) + "," + Quoted(second);
    if entries == [] {
      assert [head] + Rows(entries) == [head];
      ReadRow(first, second, []);
      assert head + [] == head;
      ReadFileLast(head, Record(first, second));
      assert ExpectedRecords(entries) == [];
      assert [Record(first, second)] + [] == [Record(first, second)];
    } else {
      var e := entries[0];
      RowsCons(entries);
      var tail := JoinLines(Rows(entries));
      JoinCons(head, Rows(entries));
      ReadRow(first, second, "\n" + tail);
      ReadLines(e.title, SummaryOrDefault(e.summary), entries[1..]);
      ReadFileStep(head, Record(first, second), tail);
    }
  }

  /**
   * Reading the file back gives the header record and then, in order, one record per
   * story holding exactly its title and its summary (or the default for an empty one).
   */
  lemma ContentReadsBack(stories: seq<StoryFilter.ScoredStory>)
    ensures ReadFile(CsvContent(stories)) == Some([Record("title", "content")] + ExpectedRecords(Entries(stories)))
  {
    ReadLines("title", "content", Entries(stories));
  }

  /** Escaping adds one character per double quote and no line break. */
  lemma {:induction false} EscapeCounts(s: string)
    ensures |Escape(s)| == |s| + multiset(s)['"']
    ensures multiset(Escape(s))['\n'] == multiset(s)['\n']
  {
    if s != [] {
      EscapeCounts(s[1..]);
      assert s == [s[0]] + s[1..];
    }
  }

  lemma QuotedHasNoLineBreak(s: string)
    requires '\n' !in s
    ensures '\n' !in Quoted(s)
  {
    EscapeCounts(s);
    assert multiset(Quoted(s))['\n'] == 0;
  }

  lemma DefaultHasNoLineBreak(summary: string)
    requires '\n' !in summary
    ensures '\n' !in SummaryOrDefault(summary)
  {
    assert '\n' !in NoSummary by {
      assert forall k :: 0 <= k < |NoSummary| ==> NoSummary[k] != '\n';
    }
  }

  /** A row holds a line break only if its title or summary does. */
  lemma RowHasNoLineBreak(e: Entry)
    requires '\n' !in e.title && '\n' !in e.summary
    ensures '\n' !in Row(e)
  {
    QuotedHasNoLineBreak(e.title);
    DefaultHasNoLineBreak(e.summary);
    QuotedHasNoLineBreak(SummaryOrDefault(e.summary));
  }

  /**
   * When no title or summary holds a line break, the file has exactly one line per story
   * after the header: it holds as many "\n" as there are stories.
   */
  lemma LineCount(stories: seq<StoryFilter.ScoredStory>)
    requires forall i :: 0 <= i < |stories| ==> '\n' !in stories[i].story.title && '\n' !in stories[i].story.summary
    ensures multiset(CsvContent(stories))['\n'] == |stories|
  {
    QuotedHasNoLineBreak("title");
    QuotedHasNoLineBreak("content");
    JoinedLineCount(Header, Entries(stories));
  }

  lemma {:induction false} JoinedLineCount(head: string, entries: seq<Entry>)
    requires '\n' !in head
    requires forall i :: 0 <= i < |entries| ==> '\n' !in entries[i].title && '\n' !in entries[i].summary
    ensures multiset(JoinLines([head] + Rows(entries)))['\n'] == |entries|
    decreases |entries|
  {
    if entries == [] {
      assert [head] + Rows(entries) == [head];
      assert multiset(head)['\n'] == 0;
    } else {
      RowsCons(entries);
      RowHasNoLineBreak(entries[0]);
      JoinedLineCount(Row(entries[0]), entries[1..]);
      JoinCons(head, Rows(entries));
      assert multiset(head)['\n'] == 0;
    }
  }
}
