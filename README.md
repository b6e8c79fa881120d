# Test scripts of a library search stack, modelled in Dafny

This project models three small Ruby scripts.

- **`smtp_receiver.rb`** is a stub SMTP server. It prints a notice for each client and sends the `220` greeting. It then echoes every line the client sends to its own standard output. Each line is answered from its exact text and one flag, `reading_data`. The session ends when the client sends `QUIT`.
- **`extract_issns_from_article_search_results.rb`** reads a query log. Each query is a header line `<time stamp> | <start> | <rows> | <query>`, possibly followed by continuation lines. Once the next header completes a query, the script asks the search backend for that query's result page. It prints `<time stamp>: <issn>,<issn>,...` for the ISSNs it finds there, or reports the query as empty on standard error. Within a page, each `<inf:cluster>` contributes the ISSNs of one chosen member: the `publisher` member, else the `database` member, else the first member. Within a member, each `<journal>` block contributes the value of its first `<issn>` or `<eissn>` element.
- **`play_issn_list.rb`** replays those lines against an image service. For each ISSN it requests the cover image, writes the image to a file, complains about any status other than 200 and 404, and counts the request. For each replayed line it records a request time. After the requests of every line but the first, it announces the pause between that line's time stamp and the previous one. Timestamps in the ETH format `x_d_d_d_d_d` are rewritten first. At the end it writes a request-time log and an ISSN log.

Modules:

- `Collections`: Ruby Hash insertion order (`AppendNew`, `Remember`, `Distinct`), counting (`Tally`), and concatenating maps.
- `Text`: lines as `gets` yields them, the newline rule of `puts`, fixed-string search, the character classes `\s`, `\S` and `\d`, `Array#join`, and `String#split`, which drops trailing empty fields.
- `Scanning`: the fixed-tag patterns `open(.*?)close`, `prefix(.*?)>(.*?)close` and `l|r`, matched the way `String#scan` and `=~` match them.
- `SmtpReceiver`: the SMTP receiver.
  - A client is the sequence of lines it sends.
  - What the server writes is one trace of events: lines on its standard output, lines sent to the client, and closing the connection.
  - `Converse`, `Session` and `Serve` are the loops, proved against the functions `LoopTrace`, `SessionTrace` and `Served`.
- `ExtractIssns`: the extraction script.
  - The three `scan` loops are methods (`ExtractIssnsOf`, `GroupMembers`, `FindIssns`), proved against `PageIssns`.
  - The input loop is `ReadLog`, proved against the fold `ReadAll` of `ReadLine`.
  - The member selection of the code is proved equal to the rule stated over the cluster's members in document order.
- `PlayIssnList`: the replay script.
  - The script's variables (`issn_stats` with its key order, `request_times`, `previous_timestamp`) are one `ReplayState` value. So are the standard streams and the image files.
  - Each loop is a method proved against a closed form. `ReplayAll` ends in `Replayed(cfg, w, Entries(lines))`: counters equal to occurrence counts, keys in first-request order, one request time per replayed line, one notice per consecutive pair of timestamps, the complaints, and the saved images.
- `Pipeline`: the two performance-test scripts in sequence. A line the extraction script prints is read back by the replay script as one request: its time stamp after the ETH rewrite, and its ISSNs without trailing empty ones. This holds provided no ISSN holds a comma.

Everything the scripts get from outside is a parameter:

- the command-line options;
- the lines of standard input;
- the search backend and the image service, as functions from URL to response;
- `URI.encode`;
- the clock readings;
- the pause printed between two timestamps.

The SMTP receiver recognises `DATA` and `.` in either mode (`smtp_receiver.rb:21-27`); see `SmtpReceiver.DataOpens` and `SmtpReceiver.DataCloses`.

## Model

| member | source | states |
|---|---|---|
| SmtpReceiver.Converse | smtp_receiver/smtp_receiver.rb:16-33 | The loop writes exactly `LoopTrace(false, lines)`: each line read is echoed, then answered by the `case`. It stops because of `QUIT` exactly when the client sends `QUIT`. |
| SmtpReceiver.Session | smtp_receiver/smtp_receiver.rb:13-35 | One client: the connected notice, the greeting, the loop, then the close and the disconnected notice exactly when the client quits. |
| SmtpReceiver.Serve | smtp_receiver/smtp_receiver.rb:8-13 | Prints the binding line for the given port or 2525. Serves clients in order, each with its session trace, up to and including the first client that never quits. Standard output is the binding line followed by every session's printed lines. |
| SmtpReceiver.ServeStep | smtp_receiver/smtp_receiver.rb:12-36 | Serving the next client keeps the accept loop's invariant: sessions so far, output so far, and clients still to come. |
| SmtpReceiver.Served | smtp_receiver/smtp_receiver.rb:12-36 | The number of clients served. Every client before the last one served quits. If any client is left unserved, the last one served never quit. The count is zero only when there are no clients. |
| SmtpReceiver.ReadCount | smtp_receiver/smtp_receiver.rb:18-29 | The lines a session reads: up to and including the first `QUIT`, or all of them if there is none. |
| SmtpReceiver.LoopAdvance | smtp_receiver/smtp_receiver.rb:18-32 | One turn of the loop writes the line's events, then continues in the new mode, or stops on `QUIT`. |
| SmtpReceiver.CannedReplies | smtp_receiver/smtp_receiver.rb:15-27 | The greeting and the replies already end in CRLF, so `client.puts` sends them unchanged. |
| SmtpReceiver.LoopRepliesAreCanned | smtp_receiver/smtp_receiver.rb:22-31 | Inside the loop the client receives only `354 Intermediate` or `250 OK`. |
| SmtpReceiver.GreetingFirstAndOnce | smtp_receiver/smtp_receiver.rb:14-15 | The greeting is the first thing sent, before any line is read, and it is never sent again. |
| SmtpReceiver.LoopEchoesLinesRead | smtp_receiver/smtp_receiver.rb:19-20 | The loop's standard output is every line read, up to the first `QUIT`, in order. |
| SmtpReceiver.SessionStdout | smtp_receiver/smtp_receiver.rb:14-35 | A session's standard output is the connected notice, the lines read, then the disconnected notice exactly when the client quit. |
| SmtpReceiver.SessionBracketed | smtp_receiver/smtp_receiver.rb:14-35 | Every session starts with the connected notice. A session that quits ends with the close and the disconnected notice. The connection is closed exactly when the client quits. |
| SmtpReceiver.NoCloseInLoop | smtp_receiver/smtp_receiver.rb:18-34 | The loop never closes the connection. |
| SmtpReceiver.EchoBeforeReply | smtp_receiver/smtp_receiver.rb:20-31 | Every reply immediately follows an echo. |
| SmtpReceiver.ReplyFollowsEcho | smtp_receiver/smtp_receiver.rb:19-31 | The echo of each line read is immediately followed by the reply the `case` gives that line in the mode it is read in, and by no reply when the `case` gives none. |
| SmtpReceiver.BodySwallowed | smtp_receiver/smtp_receiver.rb:30-31 | In data mode, lines other than `DATA`, `.` and `QUIT` are echoed and get no reply. |
| SmtpReceiver.DataOpens | smtp_receiver/smtp_receiver.rb:22-24 | `DATA` in either mode is echoed, answered with `354 Intermediate`, and switches to data mode. |
| SmtpReceiver.DataCloses | smtp_receiver/smtp_receiver.rb:25-27 | `.` in either mode is echoed, answered with `250 OK`, and leaves the loop in command mode. |
| SmtpReceiver.DataTransaction | smtp_receiver/smtp_receiver.rb:21-31 | `DATA`, a body and `.` give the `354` reply, the body echoed without replies, then the `250` reply, and command mode afterwards. |
| SmtpReceiver.CommandModeAcknowledgesEachLine | smtp_receiver/smtp_receiver.rb:30-31 | In command mode, without `DATA` or `QUIT`, every line is echoed and gets exactly one `250 OK`. |
| SmtpReceiver.NothingReadAfterQuit | smtp_receiver/smtp_receiver.rb:28-29 | Lines after the first `QUIT` change nothing the server writes. |
| SmtpReceiver.QuitInEitherMode | smtp_receiver/smtp_receiver.rb:28-29 | `QUIT` in either mode is echoed and ends the loop without a reply. |
| SmtpReceiver.ExactMatchOnly | smtp_receiver/smtp_receiver.rb:21-31 | Matching is on the exact text. `DATA` or `QUIT` ended by a bare newline or in lower case, and `.` ended by a bare newline, are ordinary lines: `250 OK` in command mode and no reply in data mode. |
| SmtpReceiver.Echo | smtp_receiver/smtp_receiver.rb:20 | The echo of each line is `puts` of that line, one for one. |
| Text.Puts | performance_test/gazo/play_issn_list.rb:76 | `puts` writes its text followed by a newline, unless the text already ends in one. |
| Text.Body | performance_test/gazo/play_issn_list.rb:54 | What `.` can match in a line: the line without its final newline. It holds no newline. |
| Text.Find | performance_test/gazo/play_issn_list.rb:54 | The first occurrence of a string at or after a position, and no earlier one. |
| Text.SpanEnd | performance_test/gazo/extract_issns_from_article_search_results.rb:75 | Where a greedy `\s*`, `\S+` or `\d+` stops: every character before it is in the class, and the one at it is not. |
| Text.Fields | performance_test/gazo/play_issn_list.rb:55 | The fields between separators: none holds the separator, and joining them gives the text back. |
| Text.DropTrailingEmpty | performance_test/gazo/play_issn_list.rb:55 | Only trailing empty fields are dropped, and the result does not end in one. |
| Text.SplitJoin | performance_test/gazo/play_issn_list.rb:55 | `split` undoes `join` when no field holds the separator and the last field is not empty. |
| Text.FieldsOfJoin | performance_test/gazo/play_issn_list.rb:55 | Splitting a join of separator-free fields into all fields gives them back, empty ones included. |
| Text.Decimal | performance_test/gazo/play_issn_list.rb:91 | `Integer#to_s` writes decimal digits without a leading zero. |
| Text.DecimalRoundTrip | performance_test/gazo/play_issn_list.rb:91 | A written counter reads back as the same number. |
| Collections.DistinctFirstOccurrences | performance_test/gazo/play_issn_list.rb:66 | A Hash's key order has no duplicates and holds exactly the keys, in the order of their first occurrence. |
| Collections.TallyCounts | performance_test/gazo/play_issn_list.rb:66-67 | After counting, each counter has grown by the number of occurrences of its key. A key exists exactly when it existed before or occurs. |
| Collections.TallyAppend | performance_test/gazo/play_issn_list.rb:60-67 | Counting `a` and then `b` is counting `a + b`. |
| Collections.RememberAppend | performance_test/gazo/play_issn_list.rb:66 | Recording keys from `a` and then `b` is recording `a + b`. |
| Collections.RememberExtends | performance_test/gazo/play_issn_list.rb:66 | Recording keys only ever appends. |
| Scanning.MatchAt | performance_test/gazo/extract_issns_from_article_search_results.rb:40-56 | A match at a position ends after it and within the text. |
| Scanning.Leftmost | performance_test/gazo/extract_issns_from_article_search_results.rb:40-41 | The match `scan` takes next is at the first position that has one, and none exists earlier. |
| Scanning.ScanStep | performance_test/gazo/extract_issns_from_article_search_results.rb:40 | A scan is the leftmost match, then the scan resumed where that match ends. |
| Scanning.ElementCase | performance_test/gazo/extract_issns_from_article_search_results.rb:41 | `open(.*?)close` captures up to the first closing string after the opening one. |
| Scanning.ScanRendered | performance_test/gazo/extract_issns_from_article_search_results.rb:40 | Scanning a text made of `/m` elements yields exactly their contents, in order. This holds when no content contains an early closing string. |
| Scanning.AltFirst | performance_test/gazo/extract_issns_from_article_search_results.rb:41 | An alternation takes its left alternative when that one matches at the position. |
| Scanning.AltSecond | performance_test/gazo/extract_issns_from_article_search_results.rb:41 | An alternation falls back to its right alternative when the left one does not match. |
| Scanning.SingleLineContent | performance_test/gazo/extract_issns_from_article_search_results.rb:41-56 | What a pattern without `/m` captures holds no newline. |
| Scanning.ElementContentAvoidsClose | performance_test/gazo/extract_issns_from_article_search_results.rb:56 | An element's content holds no occurrence of its closing string. |
| Scanning.LeftmostAt | performance_test/gazo/extract_issns_from_article_search_results.rb:40-41 | The leftmost match is the one at the first position that has a match. |
| Scanning.ElementMatch | performance_test/gazo/extract_issns_from_article_search_results.rb:40-41 | An element with no early closing string matches at its opening string. It captures its content and ends after its closing string. |
| Scanning.ElementAfter | performance_test/gazo/extract_issns_from_article_search_results.rb:41 | An element standing right after any prefix matches there, whatever follows it. |
| Scanning.ElementAtStart | performance_test/gazo/extract_issns_from_article_search_results.rb:40 | An `/m` element at the scan position is the leftmost match. The scan resumes right after it. |
| Scanning.NoOpening | performance_test/gazo/extract_issns_from_article_search_results.rb:40-56 | No element matches where its opening string does not stand. |
| ExtractIssns.FirstIssn | performance_test/gazo/extract_issns_from_article_search_results.rb:41-43 | The value of the first `<issn>` or `<eissn>` element of a journal block. It holds no newline. |
| ExtractIssns.FirstIssnIsLeftmost | performance_test/gazo/extract_issns_from_article_search_results.rb:41-43 | There is no value exactly when no position starts an element. Otherwise the value comes from the leftmost element. |
| ExtractIssns.FirstElementWins | performance_test/gazo/extract_issns_from_article_search_results.rb:41-43 | When no `<issn>` or `<eissn>` element matches before it, an element's value is taken, whatever other text precedes it and whatever follows it. |
| ExtractIssns.NoTagNoIssn | performance_test/gazo/extract_issns_from_article_search_results.rb:41-43 | A block with neither tag contributes nothing. |
| ExtractIssns.IssnAfter | performance_test/gazo/extract_issns_from_article_search_results.rb:41 | An `<issn>` or `<eissn>` element right after any prefix matches the alternation there. It captures the value. |
| ExtractIssns.IssnsOfJournals | performance_test/gazo/extract_issns_from_article_search_results.rb:38-47 | At most one value per journal block, none holding a newline. |
| ExtractIssns.IssnsOfJournalsMembers | performance_test/gazo/extract_issns_from_article_search_results.rb:38-47 | Every value collected is some block's first ISSN, and every block that has one contributes it. |
| ExtractIssns.IssnsOfJournalsAppend | performance_test/gazo/extract_issns_from_article_search_results.rb:40-45 | Blocks contribute in document order. |
| ExtractIssns.ExtractIssnsOf | performance_test/gazo/extract_issns_from_article_search_results.rb:38-47 | The scan loop returns the values for the member's journal blocks, in order. |
| ExtractIssns.MemberType | performance_test/gazo/extract_issns_from_article_search_results.rb:56 | The first `type="..."` value, holding no quote and no newline. Without one, the type is nil. |
| ExtractIssns.GroupsByKind | performance_test/gazo/extract_issns_from_article_search_results.rb:54-59 | The hash has a key for each type present. Each key holds that type's members in document order and is never empty. |
| ExtractIssns.GroupMembers | performance_test/gazo/extract_issns_from_article_search_results.rb:54-59 | The loop builds that hash and its key order. |
| ExtractIssns.SelectMember | performance_test/gazo/extract_issns_from_article_search_results.rb:62-68 | Nothing is chosen exactly when the cluster has no members. |
| ExtractIssns.SelectionRule | performance_test/gazo/extract_issns_from_article_search_results.rb:61-68 | On the hash the members build, the choice is the first `publisher` member, else the first `database` member, else the first member in document order. |
| ExtractIssns.GroupsWellKeyed | performance_test/gazo/extract_issns_from_article_search_results.rb:54-59 | The hash's keys are exactly the types in its key order, and none of them holds an empty list. |
| ExtractIssns.GroupKey | performance_test/gazo/extract_issns_from_article_search_results.rb:54-59 | A type is a key of the hash exactly when some member has it. The key then holds exactly that type's members. |
| ExtractIssns.OfKind | performance_test/gazo/extract_issns_from_article_search_results.rb:57-58 | A type's list is empty exactly when no member has that type. |
| ExtractIssns.OfKindHead | performance_test/gazo/extract_issns_from_article_search_results.rb:63-67 | `[0]` of a type's list is the first member of that type. |
| ExtractIssns.IssnsOfClustersAppend | performance_test/gazo/extract_issns_from_article_search_results.rb:53-69 | Clusters contribute in document order. |
| ExtractIssns.FindIssns | performance_test/gazo/extract_issns_from_article_search_results.rb:50-71 | `find_issns` on a page returns `PageIssns`: per cluster, the ISSNs of the chosen member. |
| ExtractIssns.ParseHeader | performance_test/gazo/extract_issns_from_article_search_results.rb:75 | A header gives a time stamp of the log's form, plus offset and page size in digits. |
| ExtractIssns.NumberField | performance_test/gazo/extract_issns_from_article_search_results.rb:75 | `\s*(\d+) \| ` captures digits and moves past the separator. |
| ExtractIssns.TimestampAt | performance_test/gazo/extract_issns_from_article_search_results.rb:75 | The first capture group is a date and time of the form `dddd-dd-dd dd:dd:dd`, followed by at least one non-space character. |
| ExtractIssns.ParseContinuation | performance_test/gazo/extract_issns_from_article_search_results.rb:84 | A continuation line is a non-empty run of white space, then `": "`, then the text it adds to the query. |
| ExtractIssns.ContinuationOf | performance_test/gazo/extract_issns_from_article_search_results.rb:84-86 | Every line of that shape is a continuation, and it adds exactly its text after `": "`. |
| ExtractIssns.HeaderNotContinuation | performance_test/gazo/extract_issns_from_article_search_results.rb:74-84 | No line is both a header and a continuation. |
| ExtractIssns.Headers | performance_test/gazo/extract_issns_from_article_search_results.rb:75 | The number of header lines is at most the number of lines. |
| ExtractIssns.ReadAllNext | performance_test/gazo/extract_issns_from_article_search_results.rb:73-88 | Reading one more line is one more step of the loop. |
| ExtractIssns.CrashIsFinal | performance_test/gazo/extract_issns_from_article_search_results.rb:86 | Once `nil += ...` has raised, no later line changes anything. |
| ExtractIssns.CrashWhen | performance_test/gazo/extract_issns_from_article_search_results.rb:84-86 | The loop raises exactly when a continuation line comes before the first header. |
| ExtractIssns.OtherLinesIgnored | performance_test/gazo/extract_issns_from_article_search_results.rb:74-87 | A line that is neither a header nor a continuation changes nothing. |
| ExtractIssns.ContinuationAppends | performance_test/gazo/extract_issns_from_article_search_results.rb:86 | A continuation appends its text to the open query and changes nothing else. |
| ExtractIssns.QueriesFromHeaders | performance_test/gazo/extract_issns_from_article_search_results.rb:73-88 | Each header starts one query, and the next header completes it. The last query is still open when input ends and is never looked up. |
| ExtractIssns.Report | performance_test/gazo/extract_issns_from_article_search_results.rb:80-81 | A query is reported on standard output exactly when it has ISSNs. |
| ExtractIssns.ReportAt | performance_test/gazo/extract_issns_from_article_search_results.rb:77-82 | The i-th report is for the i-th completed query. It goes to standard output exactly when that query has ISSNs. |
| ExtractIssns.HeaderStep | performance_test/gazo/extract_issns_from_article_search_results.rb:75-83 | A header completes and reports the open query, then opens its own query. |
| ExtractIssns.OtherStep | performance_test/gazo/extract_issns_from_article_search_results.rb:74-87 | A line of neither form keeps the loop invariant unchanged. |
| ExtractIssns.ContinuationStep | performance_test/gazo/extract_issns_from_article_search_results.rb:84-86 | A continuation extends the open query. With no open query, it raises and ends the run with the reports so far. |
| ExtractIssns.ReadStep | performance_test/gazo/extract_issns_from_article_search_results.rb:73-88 | One pass of the loop, with the page fetched, keeps the loop invariant or stops at the crash. |
| ExtractIssns.ReadLog | performance_test/gazo/extract_issns_from_article_search_results.rb:73-88 | The output is the reports of the queries completed before the end or the crash. The script crashes exactly when `ReadAll` says so. |
| ExtractIssns.Extract | performance_test/gazo/extract_issns_from_article_search_results.rb:30-35 | Without `-u` the script prints its usage line and does nothing else. Otherwise it reads the log. |
| PlayIssnList.ShowsUsage | performance_test/gazo/play_issn_list.rb:39-42 | The usage line is printed exactly when a mandatory option is missing. The `opt.empty?` test adds nothing. |
| PlayIssnList.ReplayLineMatches | performance_test/gazo/play_issn_list.rb:54 | A line is replayed exactly when some `": "` after its first character is followed by more text. |
| PlayIssnList.SeparatorAfter | performance_test/gazo/play_issn_list.rb:54 | `(.+?)` ends at the first `": "` after the first character. |
| PlayIssnList.ParseWritten | performance_test/gazo/play_issn_list.rb:54-55 | `<ts>: <f>,...,<f>` as `puts` writes it reads back as that timestamp and those fields. |
| PlayIssnList.ParseAt | performance_test/gazo/play_issn_list.rb:54-55 | A line `<ts>: <rest>` whose first separator follows `<ts>` gives `<ts>` and the fields of `<rest>`. |
| PlayIssnList.NoSeparatorAt | performance_test/gazo/play_issn_list.rb:54 | `": "` does not start where either of its characters is missing. |
| PlayIssnList.DigitGroups | performance_test/gazo/play_issn_list.rb:57 | `n` groups `_(\d+)` give `n` digit strings, starting at an underscore. |
| PlayIssnList.FirstEth | performance_test/gazo/play_issn_list.rb:57 | The shortest `(.+?)` before five digit groups, and no earlier start. |
| PlayIssnList.EthRewrite | performance_test/gazo/play_issn_list.rb:57 | `x_a_b_c_d_e...` becomes `x a b:c:d e`, and whatever follows the fifth group is dropped. |
| PlayIssnList.GroupsOf | performance_test/gazo/play_issn_list.rb:57 | Digit groups written `_g1_g2...`, followed by a non-digit, are matched back as exactly those groups. |
| PlayIssnList.FirstGroups | performance_test/gazo/play_issn_list.rb:57 | After a prefix without `_`, the five groups match first right where the prefix ends. |
| PlayIssnList.NoUnderscoreUnchanged | performance_test/gazo/play_issn_list.rb:57 | A timestamp without `_` is kept as it is. |
| PlayIssnList.Complaint | performance_test/gazo/play_issn_list.rb:65 | A line goes to standard error exactly when the status is neither 200 nor 404. |
| PlayIssnList.ComplaintsConcat | performance_test/gazo/play_issn_list.rb:60-65 | Standard error holds each ISSN's complaint, in request order. |
| PlayIssnList.ComplaintsIff | performance_test/gazo/play_issn_list.rb:65 | Nothing goes to standard error exactly when every status is 200 or 404. |
| PlayIssnList.ComplaintsAppend | performance_test/gazo/play_issn_list.rb:60-65 | Complaints for `a + b` are those for `a`, then those for `b`. |
| PlayIssnList.SavedFiles | performance_test/gazo/play_issn_list.rb:61-64 | Every requested ISSN has its image file, and earlier files remain. The last request's body is in its file. |
| PlayIssnList.SavedUntouched | performance_test/gazo/play_issn_list.rb:62-64 | A file no request names keeps its content. |
| PlayIssnList.SavedAppend | performance_test/gazo/play_issn_list.rb:60-64 | Saving for `a` and then for `b` is saving for `a + b`. |
| PlayIssnList.Entries | performance_test/gazo/play_issn_list.rb:52-54 | At most one request per line. Every line is replayed when all match, and none when none match. |
| PlayIssnList.NoticesLength | performance_test/gazo/play_issn_list.rb:73-79 | One notice per request but the first. |
| PlayIssnList.NoticeAt | performance_test/gazo/play_issn_list.rb:73-79 | The k-th notice announces timestamp k + 1, with the pause since timestamp k. |
| PlayIssnList.ReplayCounts | performance_test/gazo/play_issn_list.rb:66-67 | Each counter equals the number of requests for its ISSN. Counters and key order exist for exactly the requested ISSNs, with no repeated key. |
| PlayIssnList.IssnLogCounts | performance_test/gazo/play_issn_list.rb:89-93 | The ISSN log has one line `<issn>: <count>` per distinct ISSN, in the order of first request. |
| PlayIssnList.ReplaysReplayed | performance_test/gazo/play_issn_list.rb:45-81 | The field-wise replay invariant determines the state: it is the closed form. |
| PlayIssnList.AdvanceReplayed | performance_test/gazo/play_issn_list.rb:54-79 | One replayed line takes the closed form for the requests so far to the closed form with that request added. |
| PlayIssnList.ReplayStep | performance_test/gazo/play_issn_list.rb:52-80 | One input line keeps the replay invariant: an ignored line changes nothing. |
| PlayIssnList.ReplayedSameKeys | performance_test/gazo/play_issn_list.rb:66 | The replayed counters and their key order hold the same ISSNs. |
| PlayIssnList.CountRequest | performance_test/gazo/play_issn_list.rb:66-67 | A new ISSN gets an entry at the end of the key order. Its counter grows by one. |
| PlayIssnList.FetchImage | performance_test/gazo/play_issn_list.rb:61-67 | One ISSN: its image is saved, its complaint (if any) is written, and it is counted. Nothing else changes. |
| PlayIssnList.FetchImages | performance_test/gazo/play_issn_list.rb:60-68 | The ISSNs of a line, in order: counted, recorded, saved and complained about. Nothing else changes. |
| PlayIssnList.FetchStep | performance_test/gazo/play_issn_list.rb:60-68 | One more ISSN extends the ISSNs done by one. |
| PlayIssnList.PlayLine | performance_test/gazo/play_issn_list.rb:53-80 | A matching line fetches its ISSNs, records a request time, announces the pause after the first request, and remembers its timestamp. A non-matching line changes nothing. |
| PlayIssnList.ReplayAll | performance_test/gazo/play_issn_list.rb:52-81 | The state after all of standard input is `Replayed` of the lines' requests. |
| PlayIssnList.RequestTimeLog | performance_test/gazo/play_issn_list.rb:83-87 | The request-time log is one line per request time, in order. |
| PlayIssnList.IssnLog | performance_test/gazo/play_issn_list.rb:89-93 | The ISSN log is one line per counter, in key order. |
| PlayIssnList.Run | performance_test/gazo/play_issn_list.rb:39-93 | With an option missing: the usage line only. Otherwise: the replay's output and files, then the two logs written over them. |
| Pipeline.TimestampHasNoSeparator | performance_test/gazo/extract_issns_from_article_search_results.rb:75 | A log time stamp holds no newline and no `": "` after its first character. |
| Pipeline.ReplayedLine | performance_test/gazo/play_issn_list.rb:54-55 | `<ts>: <issn>,...` is read as the timestamp and the ISSNs, without trailing empty ones. It is not read at all when no ISSN text follows `": "`. |
| Pipeline.ReportReplayed | performance_test/gazo/extract_issns_from_article_search_results.rb:80 | A query reported on standard output is replayed as one request: its rewritten time stamp and its ISSNs. |
| Pipeline.ReportsReplayed | performance_test/gazo/extract_issns_from_article_search_results.rb:77-81 | Everything the extraction prints is read by the replay script as one request per query with ISSN text, in query order. |

## Left out

- Sockets, `TCPServer` and the port number as an integer are left out. Clients are served one after another, and a client is the finite list of lines it sends.
- A client that disconnects without `QUIT` is not followed past its last line. In the source, `client.gets` then returns `nil`, and the loop goes on writing to a closed connection. The model ends that client's loop and serves nobody after it.
- HTTP, `URI.encode` and `Time.now` are parameters of a `World`, as is the backend's response, as a function of the request URL. `Time.parse`, the float division by `time_factor` and the formatting of the result are folded into one parameter: the printed pause, as a function of two timestamps. `sleep` is not modelled, and `-t` has no further effect in the model.
- Command-line parsing with `getopt` is not modelled; the options arrive already parsed. On line 18 of `play_issn_list.rb` a missing comma joins `'--request-time-log'` and `'-r'` into one string, which changes how that option is declared. What the library then does with it is outside this model.
- `STDOUT.flush` and `STDERR.flush` are not modelled. They sit behind `puts ... and`, and `puts` returns `nil`, so they never run.
- File-system errors, HTTP exceptions and encoding errors are not modelled.
- Regular expressions are modelled only for the fixed patterns the scripts use, not as a general engine.
- SmtpReceiver.Serve: stops at the first client that never sends `QUIT`. It does not model the server waiting for further clients after the last one that quits, since the accept loop never ends.
- ExtractIssns.ParseHeader: states the form of what it captures, but not that every line of the header's form is recognised.
- PlayIssnList.Run: always writes both logs. In the source, `Time.parse` raises on a timestamp it cannot read (`play_issn_list.rb:74-75`), and `sleep` raises on a negative pause, which happens when the timestamps go backwards (`play_issn_list.rb:77`). Either one ends the script before the logs of lines 83-93 are written. That abort path is not modelled, because the printed pause is a total function of two timestamps.
- Pipeline.ReportReplayed: assumes ISSN values without commas. The extraction script does not check this, and a comma inside an `<issn>` element would split one value into two on replay.
- Pipeline.ReportsReplayed: carries the same no-comma assumption, through `Printable`, for every query.
