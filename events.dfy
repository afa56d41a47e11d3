/**
 * The calendar event written for one worklog record: its start and end, its
 * summary (the title shown in the calendar) and its description.
 * Reading the start time text as a timestamp is done by a date library and is a
 * parameter here: `parseStart` yields the timestamp in seconds, or nothing when
 * the text is not in the expected format.
 */
module Events {
  import opened Wrappers
  import opened Text
  import opened Report

  /** Catch-all issues whose key is not shown in the summary. */
  const BucketIssues: seq<string> := ["ALDE-2", "ALDE-3"]

  /** The fields of one calendar event to be saved. */
  datatype Projection = Projection(start: int, end: int, summary: string, description: string)

  datatype ProjectionError =
    | EmptyDescription           // the worklog description has no first line
    | BadStartTime(text: string) // the start time is not in the expected format
    | BadTimeSpent(text: string) // the time spent is not a decimal integer

  /** The calendar title: the short description, prefixed by the issue key unless it is a bucket issue. */
  function Summary(issueKey: string, shortDesc: string): (s: string)
    ensures s == shortDesc <==> issueKey in BucketIssues
    ensures issueKey !in BucketIssues ==>
              |s| == |issueKey| + 2 + |shortDesc| && s[..|issueKey| + 2] == issueKey + ": " && s[|issueKey| + 2..] == shortDesc
  {
    if issueKey !in BucketIssues then issueKey + ": " + shortDesc else shortDesc
  }

  /** The event body: the issue key and title, a blank line, then the full worklog description. */
  function Description(issueKey: string, issueTitle: string, worklog: string): (d: string)
    ensures |d| == |issueKey| + |issueTitle| + 4 + |worklog|
    ensures d[..|issueKey| + 2] == issueKey + ": "
    ensures d[|issueKey| + 2..|issueKey| + 2 + |issueTitle|] == issueTitle
    ensures d[|issueKey| + 2 + |issueTitle|..|issueKey| + 4 + |issueTitle|] == "\n\n"
    ensures d[|d| - |worklog|..] == worklog
  {
    issueKey + ": " + issueTitle + "\n\n" + worklog
  }

  /** The end of an event that lasts `seconds` from `start`. */
  function EndTime(start: int, seconds: int): (end: int)
    ensures end - start == seconds
    ensures seconds >= 0 ==> end >= start
  {
    start + seconds
  }

  /** Maps one record to its calendar event, failing as the first failing step does. */
  function Project(rec: Record, parseStart: string -> Option<int>): (r: Result<Projection, ProjectionError>)
    requires IsRecord(rec)
    ensures rec[WorklogDescriptionKey] == [] ==> r == Failure(EmptyDescription)
    ensures rec[WorklogDescriptionKey] != [] && parseStart(rec[StartTimeKey]).None? ==>
              r == Failure(BadStartTime(rec[StartTimeKey]))
    ensures rec[WorklogDescriptionKey] != [] && parseStart(rec[StartTimeKey]).Some? && !IsIntLiteral(rec[TimeSpentKey]) ==>
              r == Failure(BadTimeSpent(rec[TimeSpentKey]))
    ensures r.Success? <==>
              rec[WorklogDescriptionKey] != [] && parseStart(rec[StartTimeKey]).Some? && IsIntLiteral(rec[TimeSpentKey])
    ensures r.Success? ==>
              && r.value.start == parseStart(rec[StartTimeKey]).value
              && r.value.end - r.value.start == ParseInt(rec[TimeSpentKey]).value
              && r.value.summary == Summary(rec[IssueNumberKey], FirstLine(rec[WorklogDescriptionKey]).value)
              && r.value.description == Description(rec[IssueNumberKey], rec[IssueTitleKey], rec[WorklogDescriptionKey])
  {
    var shortDesc := FirstLine(rec[WorklogDescriptionKey]);
    if shortDesc.None? then Failure(EmptyDescription)
    else
      var start := parseStart(rec[StartTimeKey]);
      if start.None? then Failure(BadStartTime(rec[StartTimeKey]))
      else
        var seconds := ParseInt(rec[TimeSpentKey]);
        if seconds.None? then Failure(BadTimeSpent(rec[TimeSpentKey]))
        else
          var issueKey := rec[IssueNumberKey];
          Success(Projection(
            start.value,
            EndTime(start.value, seconds.value),
            Summary(issueKey, shortDesc.value),
            Description(issueKey, rec[IssueTitleKey], rec[WorklogDescriptionKey])))
  }

  /** For an issue key without line breaks, the summary of a record is a single line. */
  lemma SummarySingleLine(issueKey: string, worklog: string)
    requires SingleLine(issueKey) && worklog != []
    ensures SingleLine(Summary(issueKey, FirstLine(worklog).value))
  {
  }

  /** When key and title are single lines, "<key>: <title>" is the first line of the description. */
  lemma DescriptionFirstLine(issueKey: string, issueTitle: string, worklog: string)
    requires SingleLine(issueKey) && SingleLine(issueTitle)
    ensures FirstLine(Description(issueKey, issueTitle, worklog)) == Some(issueKey + ": " + issueTitle)
  {
    var head := issueKey + ": " + issueTitle;
    forall i | 0 <= i < |head| ensures !IsLineBreak(head[i]) {
      if i >= |issueKey| + 2 {
        assert head[i] == issueTitle[i - |issueKey| - 2];
      }
    }
    assert Description(issueKey, issueTitle, worklog) == head + ("\n\n" + worklog);
    FirstLineOfConcat(head, "\n\n" + worklog);
  }
}
