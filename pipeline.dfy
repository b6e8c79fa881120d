/**
 * The two performance-test scripts in sequence: the lines the ISSN
 * extraction script prints on standard output are the input the replay
 * script reads. Each such line is `<timestamp>: <issn>,...,<issn>`, and
 * the replay script's pattern reads it back as that timestamp and those
 * ISSNs, short of the trailing empty values that `split` drops; the replay
 * then rewrites the timestamp if it is in the ETH format. All this holds
 * provided no ISSN holds a comma.
 */
module Pipeline {
  import opened Collections
  import opened Text
  import ExtractIssns
  import PlayIssnList

  /** Only the tenth character of a log time stamp is a space, and the character before it is a digit. */
  lemma ShapeSpace()
    ensures forall i :: 0 <= i < |ExtractIssns.DateTimeShape| ==>
              ExtractIssns.DateTimeShape[i] != '\n' && (ExtractIssns.DateTimeShape[i] == ' ' <==> i == 10)
    ensures ExtractIssns.DateTimeShape[9] == '0'
  {
  }

  /** A time stamp of the query log holds no newline and no `": "` past its first character. */
  lemma TimestampHasNoSeparator(t: string)
    requires ExtractIssns.IsTimestamp(t)
    ensures |t| >= 1 && '\n' !in t
    ensures forall j :: 1 <= j < |t| - 1 ==> t[j] != ':' || t[j + 1] != ' '
  {
    var n := |ExtractIssns.DateTimeShape|;
    var d := t[..n];
    ShapeSpace();
    assert forall i :: 0 <= i < n ==> t[i] == d[i];
    assert forall i :: 0 <= i < n && IsDigit(t[i]) ==> t[i] != '\n' && t[i] != ' ' && t[i] != ':';
    assert IsDigit(t[9]);
  }

  /** A time stamp, `": "` and joined values, none of them holding a newline, make one line. */
  lemma NoNewline(ts: string, issns: seq<string>)
    requires '\n' !in ts
    requires forall i :: 0 <= i < |issns| ==> '\n' !in issns[i]
    ensures '\n' !in ts + ": " + Join(issns, ',')
  {
    var j := Join(issns, ',');
    var s := ts + ": " + j;
    JoinAvoids(issns, ',', '\n');
    forall i | 0 <= i < |s| ensures s[i] != '\n' {
      if i < |ts| { assert s[i] == ts[i]; } else if i >= |ts| + 2 { assert s[i] == j[i - |ts| - 2]; }
    }
  }

  /**
   * The replay script's pattern on `<ts>: <issn>,...,<issn>` as `puts` writes
   * it: the time stamp and the ISSNs short of trailing empty ones, or no match
   * when nothing follows `": "`.
   */
  lemma ReplayedLine(ts: string, issns: seq<string>)
    requires |ts| >= 1 && '\n' !in ts
    requires forall j :: 1 <= j < |ts| - 1 ==> ts[j] != ':' || ts[j + 1] != ' '
    requires issns != []
    requires forall i :: 0 <= i < |issns| ==> ',' !in issns[i] && '\n' !in issns[i]
    ensures IsLine(Puts(ts + ": " + Join(issns, ',')))
    ensures PlayIssnList.ParseReplayLine(Puts(ts + ": " + Join(issns, ','))) ==
              if Join(issns, ',') == "" then None else Some((ts, DropTrailingEmpty(issns)))
  {
    var j := Join(issns, ',');
    var s := ts + ": " + j;
    NoNewline(ts, issns);
    assert Puts(s) == s + "\n" && Body(s + "\n") == s;
    PlayIssnList.SeparatorAfter(ts, j);
    FieldsOfJoin(issns, ',');
    if j != "" {
      PlayIssnList.ParseAt(s + "\n", ts, j);
    }
  }

  /**
   * A query reported on standard output is replayed as one request: at the
   * query's time stamp (after the replay script's rewrite of it), for the
   * ISSNs printed, short of trailing empty ones. A line holding no ISSN text
   * at all is not replayed.
   */
  lemma ReportReplayed(q: ExtractIssns.Query, issns: seq<string>)
    requires ExtractIssns.IsTimestamp(q.timestamp)
    requires issns != []
    requires forall i :: 0 <= i < |issns| ==> ',' !in issns[i] && '\n' !in issns[i]
    ensures ExtractIssns.Report(q, issns).Stdout?
    ensures IsLine(ExtractIssns.Report(q, issns).text)
    ensures PlayIssnList.Entry(ExtractIssns.Report(q, issns).text) ==
              if Join(issns, ',') == "" then None
              else Some(PlayIssnList.Request(PlayIssnList.RewriteTimestamp(q.timestamp), DropTrailingEmpty(issns)))
  {
    TimestampHasNoSeparator(q.timestamp);
    ReplayedLine(q.timestamp, issns);
  }

  /** The text the extraction script prints on standard output, one string per `puts`. */
  function StdoutTexts(out: seq<ExtractIssns.Output>): seq<string> {
    if out == [] then []
    else
      var o := out[|out| - 1];
      StdoutTexts(out[..|out| - 1]) + (if o.Stdout? then [o.text] else [])
  }

  lemma StdoutSnoc(out: seq<ExtractIssns.Output>, o: ExtractIssns.Output)
    ensures StdoutTexts(out + [o]) == StdoutTexts(out) + (if o.Stdout? then [o.text] else [])
  {
    assert (out + [o])[..|out|] == out;
  }

  /** A query's ISSNs can be printed on one line and read back: no ISSN holds a comma or a newline, and the time stamp is the log's. */
  predicate Printable(q: ExtractIssns.Query, issns: seq<string>) {
    ExtractIssns.IsTimestamp(q.timestamp) && forall i :: 0 <= i < |issns| ==> ',' !in issns[i] && '\n' !in issns[i]
  }

  /** The requests the replay script should make for the completed queries `qs`: one per query with ISSN text, in order. */
  function Expected(qs: seq<ExtractIssns.Query>, found: ExtractIssns.Query -> seq<string>): seq<PlayIssnList.Request> {
    if qs == [] then []
    else
      var q := qs[|qs| - 1];
      Expected(qs[..|qs| - 1], found)
      + (if Join(found(q), ',') == "" then []
         else [PlayIssnList.Request(PlayIssnList.RewriteTimestamp(q.timestamp), DropTrailingEmpty(found(q)))])
  }

  /** One more request line read by the replay script. */
  lemma EntriesAppend(ls: seq<Line>, l: Line)
    ensures PlayIssnList.Entries(ls + [l]) == PlayIssnList.Entries(ls) + OptionSeq(PlayIssnList.Entry(l))
  {
    PlayIssnList.EntriesSnoc(ls + [l], |ls|);
    assert (ls + [l])[..|ls|] == ls && (ls + [l])[..|ls| + 1] == ls + [l];
  }

  /** Reporting one more query adds the request it should replay. */
  lemma ReportsStep(qs: seq<ExtractIssns.Query>, found: ExtractIssns.Query -> seq<string>, q: ExtractIssns.Query,
                    ls: seq<Line>, ls': seq<string>)
    requires Printable(q, found(q))
    requires ls == StdoutTexts(ExtractIssns.Reports(qs, found)) && PlayIssnList.Entries(ls) == Expected(qs, found)
    requires ls' == StdoutTexts(ExtractIssns.Reports(qs + [q], found))
    ensures forall i :: 0 <= i < |ls'| ==> IsLine(ls'[i])
    ensures PlayIssnList.Entries(ls') == Expected(qs + [q], found)
  {
    var o := ExtractIssns.Report(q, found(q));
    ExtractIssns.ReportsSnoc(qs, found, q);
    StdoutSnoc(ExtractIssns.Reports(qs, found), o);
    assert (qs + [q])[..|qs|] == qs;
    if found(q) != [] {
      ReportReplayed(q, found(q));
      EntriesAppend(ls, o.text);
    } else {
      assert ls' == ls;
    }
  }

  /**
   * The whole pipeline: the lines the extraction script prints for its
   * completed queries are all lines the replay script reads, and it replays
   * them as one request per query that printed ISSN text, in query order.
   */
  lemma {:induction false} ReportsReplayed(qs: seq<ExtractIssns.Query>, found: ExtractIssns.Query -> seq<string>)
    requires forall i :: 0 <= i < |qs| ==> Printable(qs[i], found(qs[i]))
    ensures forall i :: 0 <= i < |StdoutTexts(ExtractIssns.Reports(qs, found))| ==>
              IsLine(StdoutTexts(ExtractIssns.Reports(qs, found))[i])
    ensures PlayIssnList.Entries(StdoutTexts(ExtractIssns.Reports(qs, found))) == Expected(qs, found)
  {
    if qs != [] {
      var p, q := qs[..|qs| - 1], qs[|qs| - 1];
      assert qs == p + [q];
      ReportsReplayed(p, found);
      ReportsStep(p, found, q, StdoutTexts(ExtractIssns.Reports(p, found)), StdoutTexts(ExtractIssns.Reports(qs, found)));
    }
  }
}
